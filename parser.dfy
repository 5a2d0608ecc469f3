/**
  The cron field-expansion parser (internal/cron/parser.go): one textual cron expression
  becomes six sequences of strings (minute, hour, day of month, month, day of week,
  command), or the error of the first field that fails.
*/
module Cron {
  import opened Wrappers
  import opened Text
  import opened Decimal
  import opened Runs

  /**
    Which check failed. The five field errors and `Command` stand for the source's global
    error values, `Count` for the "wrong number of elements" error, `InvalidDayString`
    for the error an unknown day name produces.
  */
  datatype ParseError =
    | Count
    | Minute
    | Hour
    | DayOfMonth
    | Month
    | DayOfWeek
    | Command
    | InvalidDayString

  type ParseResult<T> = Result<T, ParseError>

  /** The expanded schedule (the source's CronStruct). */
  datatype CronSchedule = CronSchedule(
    minute: seq<string>,
    hour: seq<string>,
    dayOfMonth: seq<string>,
    month: seq<string>,
    dayOfWeek: seq<string>,
    command: seq<string>)

  /** The day names in the order of the numbers they stand for. */
  const DayNames: seq<string> := ["MON", "TUE", "WED", "THU", "FRI", "SAT", "SUN"]

  /**
    ParseString: exactly one argument, split on ", " into exactly six fields; the five
    time fields are expanded in order over their domains and the first error is returned.
  */
  function ParseString(args: seq<string>): (r: ParseResult<CronSchedule>)
    ensures r.Ok? ==> |args| == 1 && |Split(args[0], ", ")| == 6
    ensures r.Ok? ==> var f := Split(args[0], ", ");
      r.value.command == [f[5]] && AllCommandChars(f[5])
  {
    if |args| != 1 then Err(Count)
    else
      var params := Split(args[0], ", ");
      if |params| != 6 then Err(Count)
      else
        var minute :- ParseTime(params[0], Minute, 0, 60);
        var hour :- ParseTime(params[1], Hour, 0, 24);
        var dayOfMonth :- ParseTime(params[2], DayOfMonth, 1, 32);
        var month :- ParseTime(params[3], Month, 1, 13);
        var dayOfWeek :- ParseDayOfWeek(params[4], DayOfWeek, 0, 7);
        var command :- ParseCommand(params[5..]);
        Ok(CronSchedule(minute, hour, dayOfMonth, month, dayOfWeek, command))
  }

  /** parseCommand: the command is passed through when its first token uses only allowed characters. */
  function ParseCommand(value: seq<string>): (r: ParseResult<seq<string>>)
    ensures r.Ok? <==> |value| > 0 && AllCommandChars(value[0])
    ensures r.Ok? ==> r.value == value
    ensures r.Err? ==> r.error == Command
  {
    if |value| == 0 then Err(Command)
    else if !AllCommandChars(value[0]) then Err(Command)
    else Ok(value)
  }

  /**
    parseDayOfWeek: a field of letters and hyphens is read as a day name or a range of two
    day names (translated to numbers and expanded as a numeric range); any other field is
    expanded as a numeric field.
  */
  function ParseDayOfWeek(raw: string, fieldError: ParseError, min: int, max: int): (r: ParseResult<seq<string>>)
    ensures r.Err? ==> r.error == fieldError || r.error == InvalidDayString
  {
    var value := TrimRightCommas(raw);
    if !AllDayFieldChars(value) then Err(fieldError)
    else if |value| == 0 then Err(fieldError)
    else if AllDayNameChars(value) then
      if '-' in value then
        var names := Split(value, "-");
        SplitCharParts(value, '-');
        var first :- DayNumber(names[0]);
        var last :- DayNumber(names[1]);
        ParseTime(first + "-" + last, fieldError, min, max)
      else
        var day :- DayNumber(value);
        Ok([day])
    else ParseTime(value, fieldError, min, max)
  }

  /** convertStringToNumber: a day name, exactly and case-sensitively, to its number. */
  function DayNumber(name: string): (r: ParseResult<string>)
    ensures r.Ok? <==> name in DayNames
    ensures forall i | 0 <= i < |DayNames| :: DayNames[i] == name ==> r == Ok(FormatNat(i))
    ensures r.Err? ==> r.error == InvalidDayString
  {
    match name
    case "MON" => Ok("0")
    case "TUE" => Ok("1")
    case "WED" => Ok("2")
    case "THU" => Ok("3")
    case "FRI" => Ok("4")
    case "SAT" => Ok("5")
    case "SUN" => Ok("6")
    case _ => Err(InvalidDayString)
  }

  /**
    parseTime: trailing commas are dropped, then the field must be non-empty and use only
    digits and `,*-/`. The forms tried in order are `*`, step, range, list, single value.
  */
  function ParseTime(raw: string, fieldError: ParseError, min: int, max: int): (r: ParseResult<seq<string>>)
    ensures r.Err? ==> r.error == fieldError
  {
    var value := TrimRightCommas(raw);
    if !AllTimeChars(value) then Err(fieldError)
    else if |value| == 0 then Err(fieldError)
    else if value == "*" then Ok(Values(min, max))
    else if '/' in value then ParseStep(value, fieldError, min, max)
    else if '-' in value then ParseRange(value, fieldError, min, max)
    else if ',' in value then Ok(Split(value, ","))
    else Ok([value])
  }

  /**
    The step form of parseTime: only the divisor after the one `/` matters; the result
    keeps every step-th value of the whole domain, starting with the first.
  */
  function ParseStep(value: string, fieldError: ParseError, min: int, max: int): (r: ParseResult<seq<string>>)
    requires '/' in value
    ensures r.Err? ==> r.error == fieldError
  {
    var parts := Split(value, "/");
    SplitCharParts(value, '/');
    if |parts| > 2 then Err(fieldError)
    else match ParseInt(parts[1])
      case None => Err(fieldError)
      case Some(step) =>
        if step >= 1 then Ok(Strided(Values(min, max), 0, step))
        else if min < max then Err(fieldError)
        else Ok([])
  }

  /**
    The range form of parseTime: `A-B` with the first two `-`-separated operands. A left
    operand that is not a number reads as 0; a right one fails. With A > B the range wraps
    round: A up to the end of the domain, then the start of the domain up to B.
  */
  function ParseRange(value: string, fieldError: ParseError, min: int, max: int): (r: ParseResult<seq<string>>)
    requires '-' in value
    ensures r.Err? ==> r.error == fieldError
  {
    var parts := Split(value, "-");
    SplitCharParts(value, '-');
    var left := match ParseInt(parts[0]) case Some(n) => n case None => 0;
    match ParseInt(parts[1])
    case None => Err(fieldError)
    case Some(right) =>
      if left > right then
        if left < min then Err(fieldError)
        else if right + 1 > max then Err(fieldError)
        else Ok(Values(left, max) + Values(min, right + 1))
      else if left < min then Err(fieldError)
      else if right + 1 > max then Err(fieldError)
      else Ok(Values(left, right + 1))
  }
}
