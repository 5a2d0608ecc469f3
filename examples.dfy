/**
  The cases of internal/cron/parser_test.go, derived from the general lemmas. One of them,
  the minute range `10-1`, is expected there to fail; the code accepts it as a wrapped
  range, and so does the model (RangeTenToOneWraps).
*/
module CronExamples {
  import opened Wrappers
  import opened Text
  import opened Decimal
  import opened Runs
  import opened Cron
  import opened CronProperties

  /** A field without a space cannot hold the field separator `", "`. */
  lemma NoSpaceIsClean(p: string)
    requires ' ' !in p
    ensures Clean(p, ", ")
  {
    forall j | 0 <= j < |p|
      ensures !OccursAt(p + ", ", ", ", j)
    {
      if j + 1 < |p| {
        assert (p + ", ")[j + 1] == p[j + 1];
      } else {
        assert (p + ", ")[j + 1] == ',';
      }
    }
  }

  lemma SmallNumbers()
    ensures FormatNat(0) == "0" && FormatNat(1) == "1" && FormatNat(2) == "2"
    ensures FormatNat(3) == "3" && FormatNat(4) == "4" && FormatNat(5) == "5"
    ensures FormatNat(6) == "6" && FormatNat(7) == "7" && FormatNat(8) == "8"
    ensures FormatNat(9) == "9" && FormatNat(10) == "10" && FormatNat(11) == "11"
    ensures FormatNat(12) == "12" && FormatNat(15) == "15" && FormatNat(30) == "30"
    ensures FormatNat(45) == "45"
  {
  }

  /** A run of natural numbers, element by element. */
  lemma NatValues(lo: nat, hi: nat)
    requires lo <= hi
    ensures |Values(lo, hi)| == hi - lo
    ensures forall k | 0 <= k < hi - lo :: Values(lo, hi)[k] == FormatNat(lo + k)
  {
    forall k | 0 <= k < hi - lo
      ensures Values(lo, hi)[k] == FormatNat(lo + k)
    {
      assert Values(lo, hi)[k] == FormatInt(lo + k);
    }
  }

  /** Every 15th value of the minute domain. */
  lemma QuarterHours()
    ensures Strided(Values(0, 60), 0, 15) == ["0", "15", "30", "45"]
  {
    SmallNumbers();
    StridedValues(0, 60, 15);
    var r := Strided(Values(0, 60), 0, 15);
    assert 3 < |r| && !(4 < |r|) by {
      assert 0 + 3 * 15 < 60;
      assert !(0 + 4 * 15 < 60);
    }
    assert r[0] == FormatInt(0 + 0 * 15) == "0";
    assert r[1] == FormatInt(0 + 1 * 15) == "15";
    assert r[2] == FormatInt(0 + 2 * 15) == "30";
    assert r[3] == FormatInt(0 + 3 * 15) == "45";
  }

  /** A step of 15 over the minutes is 0, 15, 30, 45. */
  lemma MinuteEveryFifteen()
    ensures ParseTime("*/15", Minute, 0, 60) == Ok(["0", "15", "30", "45"])
  {
    SmallNumbers();
    assert "*/15" == "*" + "/" + FormatNat(15);
    assert AllTimeChars("*") && AllTimeChars(FormatNat(15));
    DigitsOnly(FormatNat(15));
    StepForm("*", FormatNat(15), Minute, 0, 60);
    ParseFormat(15);
    QuarterHours();
  }

  /** The months 1 to 12. */
  lemma AllMonths()
    ensures Values(1, 13) == ["1", "2", "3", "4", "5", "6", "7", "8", "9", "10", "11", "12"]
  {
    SmallNumbers();
  }

  lemma ZeroToFour()
    ensures Values(0, 5) == ["0", "1", "2", "3", "4"]
  {
    NatValues(0, 5);
    assert FormatNat(4) == "4";
    assert Values(0, 5)[4] == "4";
  }

  /** `MON-FRI` is 0..4. */
  lemma MondayToFriday()
    ensures ParseDayOfWeek("MON-FRI", DayOfWeek, 0, 7) == Ok(["0", "1", "2", "3", "4"])
  {
    assert "MON-FRI" == DayNames[0] + "-" + DayNames[4];
    DayNameRange(0, 4, DayOfWeek, 0, 7);
    ZeroToFour();
  }

  /** `WED` is 2. */
  lemma Wednesday()
    ensures ParseDayOfWeek("WED", DayOfWeek, 0, 7) == Ok(["2"])
  {
    assert FormatNat(2) == "2";
    assert "WED" == DayNames[2];
    DayNameSingle(2, DayOfWeek, 0, 7);
  }

  lemma FourToZero()
    ensures Values(4, 7) + Values(0, 1) == ["4", "5", "6", "0"]
  {
    NatValues(4, 7);
    NatValues(0, 1);
    assert FormatNat(4) == "4" && FormatNat(5) == "5" && FormatNat(6) == "6" && FormatNat(0) == "0";
    assert Values(4, 7) == ["4", "5", "6"];
    assert Values(0, 1) == ["0"];
  }

  lemma FourToZeroRange()
    ensures ParseTime("4-0", DayOfWeek, 0, 7) == Ok(["4", "5", "6", "0"])
  {
    assert FormatNat(4) == "4" && FormatNat(0) == "0";
    assert "4-0" == FormatNat(4) + "-" + FormatNat(0);
    NumericRange(4, 0, DayOfWeek, 0, 7);
    assert ParseTime("4-0", DayOfWeek, 0, 7) == Ok(Values(4, 7) + Values(0, 1));
    FourToZero();
  }

  /** The numeric day range `4-0` wraps to 4, 5, 6, 0. */
  lemma ThursdayToMonday()
    ensures ParseDayOfWeek("4-0", DayOfWeek, 0, 7) == Ok(["4", "5", "6", "0"])
  {
    TrimRightCommasKeeps("4-0");
    assert !IsDayNameChar("4-0"[0]);
    DayOfWeekNumericFallback("4-0", DayOfWeek, 0, 7);
    FourToZeroRange();
  }

  /** The minute range `10-1` wraps: 10..59, then 0 and 1. */
  lemma RangeTenToOneWraps()
    ensures ParseTime("10-1", Minute, 0, 60) == Ok(Values(10, 60) + ["0", "1"])
  {
    SmallNumbers();
    assert "10-1" == FormatNat(10) + "-" + FormatNat(1);
    NumericRange(10, 1, Minute, 0, 60);
    NatValues(0, 2);
    assert Values(0, 2)[1] == FormatNat(1);
    assert Values(0, 2) == ["0", "1"];
  }

  /** Ranges that leave the domain fail with their field's error. */
  lemma RangesOutsideDomain()
    ensures ParseTime("1-61", Minute, 0, 60) == Err(Minute)
    ensures ParseTime("0-15", DayOfMonth, 1, 32) == Err(DayOfMonth)
  {
    assert FormatNat(0) == "0" && FormatNat(1) == "1";
    assert FormatNat(15) == "15" && FormatNat(61) == "61";
    assert "1-61" == FormatNat(1) + "-" + FormatNat(61);
    NumericRange(1, 61, Minute, 0, 60);
    assert "0-15" == FormatNat(0) + "-" + FormatNat(15);
    NumericRange(0, 15, DayOfMonth, 1, 32);
  }

  /** A double step fails with the field's error. */
  lemma DoubleStepRejected()
    ensures ParseTime("*/30/2", Minute, 0, 60) == Err(Minute)
  {
    TrimRightCommasKeeps("*/30/2");
    assert CountChar("*/30/2", '/') == 2;
    TooManySlashes("*/30/2", Minute, 0, 60);
  }

  /** Empty fields and fields with a stray character fail with the field's error. */
  lemma StrayCharactersRejected()
    ensures ParseTime(".", Minute, 0, 60) == Err(Minute)
    ensures ParseTime("", Hour, 0, 24) == Err(Hour)
    ensures ParseTime("1.15", DayOfMonth, 1, 32) == Err(DayOfMonth)
    ensures ParseDayOfWeek("1.5", DayOfWeek, 0, 7) == Err(DayOfWeek)
    ensures ParseDayOfWeek("", DayOfWeek, 0, 7) == Err(DayOfWeek)
  {
    TrimRightCommasKeeps(".");
    assert !IsTimeChar('.');
    TrimRightCommasKeeps("1.15");
    assert !IsTimeChar("1.15"[1]);
    TrimRightCommasKeeps("1.5");
    assert !IsDayFieldChar("1.5"[1]);
  }

  /** A single value is not checked against the domain. */
  lemma SingleOutOfDomainKept()
    ensures ParseTime("99", Minute, 0, 60) == Ok(["99"])
  {
    TrimRightCommasKeeps("99");
    assert AllTimeChars("99");
  }

  lemma HourZero()
    ensures ParseTime("0", Hour, 0, 24) == Ok(["0"])
  {
    TrimRightCommasKeeps("0");
    assert AllTimeChars("0");
  }

  lemma FirstAndFifteenth()
    ensures ParseTime("1,15", DayOfMonth, 1, 32) == Ok(["1", "15"])
  {
    var v := "1,15";
    TrimRightCommasKeeps(v);
    assert AllTimeChars(v);
    assert v[1] == ',' && '/' !in v && '-' !in v && v != "*";
    assert ParseTime(v, DayOfMonth, 1, 32) == Ok(Split(v, ","));
    assert v == "1" + [','] + "15";
    SplitTwo("1", ',', "15");
  }

  lemma EveryMonth()
    ensures ParseTime("*", Month, 1, 13) ==
      Ok(["1", "2", "3", "4", "5", "6", "7", "8", "9", "10", "11", "12"])
  {
    TrimRightCommasKeeps("*");
    assert AllTimeChars("*");
    AllMonths();
  }

  lemma OneToFiveRange()
    ensures ParseTime("1-5", DayOfWeek, 0, 7) == Ok(["1", "2", "3", "4", "5"])
  {
    OneToFiveValues();
    var x, y := "1", "5";
    assert "1-5" == x + "-" + y;
    assert AllDigits(x) && AllDigits(y) && DigitsValue(x) == 1 && DigitsValue(y) == 5;
    ParseDigits(x);
    ParseDigits(y);
    RangeAscending(x, y, 1, 5, DayOfWeek, 0, 7);
  }

  lemma OneToFiveValues()
    ensures Values(1, 6) == ["1", "2", "3", "4", "5"]
  {
    SmallNumbers();
    NatValues(1, 6);
    assert Values(1, 6)[4] == FormatNat(5);
  }

  /** Range operands may carry leading zeros: `05-10` is read as 5 to 10. */
  lemma LeadingZeroRange(v: string)
    requires v == "05-10"
    ensures ParseTime(v, Minute, 0, 60) == Ok(Values(5, 11))
  {
    var x, y := "05", "10";
    assert v == x + "-" + y;
    assert AllDigits(x) && AllDigits(y);
    assert DigitsValue(x) == 5 && DigitsValue(y) == 10;
    ParseDigits(x);
    ParseDigits(y);
    RangeExpansion(x, y, Minute, 0, 60);
  }

  /** An empty left operand reads as 0: `-05` as a minute range is 0 to 5. */
  lemma EmptyLeftOperand(v: string)
    requires v == "-05"
    ensures ParseTime(v, Minute, 0, 60) == Ok(Values(0, 6))
  {
    var y := "05";
    assert v == "" + "-" + y;
    assert AllDigits(y) && DigitsValue(y) == 5;
    assert ParseInt("") == None;
    BadLeftOperandReadsAsZero("", y, Minute, 0, 60);
    assert AllDigits("0") && DigitsValue("0") == 0;
    ParseDigits("0");
    ParseDigits(y);
    RangeExpansion("0", y, Minute, 0, 60);
  }

  /** An empty middle operand, or one ending in a comma, fails: `5--3`, `5-1,-3`. */
  lemma BadMiddleOperands(v: string, w: string)
    requires v == "5--3" && w == "5-1,-3"
    ensures ParseTime(v, Minute, 0, 60) == Err(Minute)
    ensures ParseTime(w, Minute, 0, 60) == Err(Minute)
  {
    assert v == "5" + "-" + "" + "-" + "3";
    assert w == "5" + "-" + "1," + "-" + "3";
    assert AllTimeChars("5") && AllTimeChars("1,") && AllTimeChars("3") && AllTimeChars("");
    var y := "1,";
    assert !IsDigit(y[1]);
    assert !IsDecimal(y) && !IsDecimal("");
    BadMiddleOperandFails("5", "", "3", Minute, 0, 60);
    BadMiddleOperandFails("5", y, "3", Minute, 0, 60);
  }

  lemma OneToFive()
    ensures ParseDayOfWeek("1-5", DayOfWeek, 0, 7) == Ok(["1", "2", "3", "4", "5"])
  {
    TrimRightCommasKeeps("1-5");
    assert !IsDayNameChar("1-5"[0]);
    DayOfWeekNumericFallback("1-5", DayOfWeek, 0, 7);
    OneToFiveRange();
  }

  lemma FindCommand()
    ensures AllCommandChars("/usr/bin/find")
  {
  }

  /** Six fields without spaces satisfy the separator condition of ParseJoinedFields. */
  lemma SixCleanFields(fields: seq<string>)
    requires |fields| == 6 && forall i | 0 <= i < 6 :: ' ' !in fields[i]
    ensures forall i | 0 <= i < 6 :: Clean(fields[i], ", ")
  {
    forall i | 0 <= i < 6
      ensures Clean(fields[i], ", ")
    {
      NoSpaceIsClean(fields[i]);
    }
  }

  // The first valid expression of the tests, "*/15, 0, 1,15, *, 1-5, /usr/bin/find", parsed in full.
  lemma ValidExpression(fields: seq<string>)
    requires fields == ["*/15", "0", "1,15", "*", "1-5", "/usr/bin/find"]
    ensures ParseString([Join(fields, ", ")]) == Ok(CronSchedule(
      ["0", "15", "30", "45"],
      ["0"],
      ["1", "15"],
      ["1", "2", "3", "4", "5", "6", "7", "8", "9", "10", "11", "12"],
      ["1", "2", "3", "4", "5"],
      ["/usr/bin/find"]))
  {
    SixCleanFields(fields);
    ParseJoinedFields(fields);
    MinuteEveryFifteen();
    HourZero();
    FirstAndFifteenth();
    EveryMonth();
    OneToFive();
    FindCommand();
  }

  /** A line of seven or five fields without spaces is the count error, whatever the fields hold. */
  lemma WrongFieldCount(fields: seq<string>)
    requires |fields| == 5 || |fields| == 7
    requires forall i | 0 <= i < |fields| :: ' ' !in fields[i]
    ensures ParseString([Join(fields, ", ")]) == Err(Count)
  {
    forall i | 0 <= i < |fields|
      ensures Clean(fields[i], ", ")
    {
      NoSpaceIsClean(fields[i]);
    }
    SplitJoin(fields, ", ");
    CountError([Join(fields, ", ")]);
  }

  /** With every time field accepted, a command whose first token has a foreign character is the command error. */
  lemma CommandRejected(fields: seq<string>)
    requires |fields| == 6 && forall i | 0 <= i < 6 :: Clean(fields[i], ", ")
    requires ParseTime(fields[0], Minute, 0, 60).Ok? && ParseTime(fields[1], Hour, 0, 24).Ok?
    requires ParseTime(fields[2], DayOfMonth, 1, 32).Ok? && ParseTime(fields[3], Month, 1, 13).Ok?
    requires ParseDayOfWeek(fields[4], DayOfWeek, 0, 7).Ok?
    requires !AllCommandChars(fields[5])
    ensures ParseString([Join(fields, ", ")]) == Err(Command)
  {
    SplitJoin(fields, ", ");
    assert fields[5..][0] == fields[5];
  }

  /** The five time fields of the first valid expression are all accepted. */
  lemma SampleTimeFieldsAccepted()
    ensures ParseTime("*/15", Minute, 0, 60).Ok? && ParseTime("0", Hour, 0, 24).Ok?
    ensures ParseTime("1,15", DayOfMonth, 1, 32).Ok? && ParseTime("*", Month, 1, 13).Ok?
    ensures ParseDayOfWeek("1-5", DayOfWeek, 0, 7).Ok?
  {
    MinuteEveryFifteen();
    HourZero();
    FirstAndFifteenth();
    EveryMonth();
    OneToFive();
  }

  /** A command of `*` is the command error. */
  lemma StarCommandRejected(fields: seq<string>)
    requires fields == ["*/15", "0", "1,15", "*", "1-5", "*"]
    ensures ParseString([Join(fields, ", ")]) == Err(Command)
  {
    assert !IsCommandChar(fields[5][0]);
    SampleFieldsBadCommand(fields);
  }

  /** The sample time fields with any command outside the allowed characters. */
  lemma SampleFieldsBadCommand(fields: seq<string>)
    requires |fields| == 6 && fields[..5] == ["*/15", "0", "1,15", "*", "1-5"]
    requires ' ' !in fields[5] && !AllCommandChars(fields[5])
    ensures ParseString([Join(fields, ", ")]) == Err(Command)
  {
    assert fields[0] == fields[..5][0] && fields[1] == fields[..5][1] && fields[2] == fields[..5][2];
    assert fields[3] == fields[..5][3] && fields[4] == fields[..5][4];
    SixCleanFields(fields);
    SampleTimeFieldsAccepted();
    CommandRejected(fields);
  }
}
