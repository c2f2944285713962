/**
 * The text formats the watcher writes: the local timestamp
 * "YYYY-MM-DD HH:MM:SS" and the log line "[<timestamp>] <message>\n".
 * Each format comes with the parser that reads it back.
 */
module LogFormat {
  import opened Wrappers

  /** A local calendar date and time of day, as the clock reports it. */
  datatype DateTime = DateTime(year: nat, month: nat, day: nat, hour: nat, minute: nat, second: nat)
  {
    /** The ranges a clock reading stays within (a leap second may read 60). */
    predicate Valid() {
      year <= 9999 && 1 <= month <= 12 && 1 <= day <= 31 &&
      hour < 24 && minute < 60 && second <= 60
    }
  }

  function Pow10(n: nat): (p: nat)
    ensures p >= 1
  {
    if n == 0 then 1 else 10 * Pow10(n - 1)
  }

  predicate IsDigit(c: char) {
    '0' <= c <= '9'
  }

  /** The last `width` decimal digits of `n`, zero-padded on the left. */
  function Digits(n: nat, width: nat): (s: string)
    ensures |s| == width
    ensures forall i :: 0 <= i < |s| ==> IsDigit(s[i])
  {
    if width == 0 then [] else Digits(n / 10, width - 1) + ['0' + (n % 10) as char]
  }

  /** The number a string of decimal digits denotes. */
  function DigitsValue(s: string): nat
    requires forall i :: 0 <= i < |s| ==> IsDigit(s[i])
  {
    if s == [] then 0 else assert IsDigit(s[|s| - 1]); 10 * DigitsValue(s[..|s| - 1]) + (s[|s| - 1] as int - '0' as int) as nat
  }

  function ParseDigits(s: string): (n: Option<nat>)
    ensures n.Some? <==> forall i :: 0 <= i < |s| ==> IsDigit(s[i])
  {
    if forall i :: 0 <= i < |s| ==> IsDigit(s[i]) then Some(DigitsValue(s)) else None
  }

  /** Reading back a zero-padded number gives the number, when it fits the width. */
  lemma {:induction false} DigitsRoundTrip(n: nat, width: nat)
    requires n < Pow10(width)
    ensures ParseDigits(Digits(n, width)) == Some(n)
  {
    if width > 0 {
      DigitsRoundTrip(n / 10, width - 1);
      var s := Digits(n, width);
      assert s[..|s| - 1] == Digits(n / 10, width - 1);
    }
  }

  /** The timestamp format "%Y-%m-%d %H:%M:%S". */
  function FormatTimestamp(t: DateTime): (s: string)
    ensures |s| == 19
  {
    Digits(t.year, 4) + "-" + Digits(t.month, 2) + "-" + Digits(t.day, 2) + " " +
    Digits(t.hour, 2) + ":" + Digits(t.minute, 2) + ":" + Digits(t.second, 2)
  }

  function ParseTimestamp(s: string): (t: Option<DateTime>)
    ensures t.Some? ==> |s| == 19
  {
    if |s| != 19 || s[4] != '-' || s[7] != '-' || s[10] != ' ' || s[13] != ':' || s[16] != ':' then None
    else
      var year, month, day := ParseDigits(s[0..4]), ParseDigits(s[5..7]), ParseDigits(s[8..10]);
      var hour, minute, second := ParseDigits(s[11..13]), ParseDigits(s[14..16]), ParseDigits(s[17..19]);
      if year.None? || month.None? || day.None? || hour.None? || minute.None? || second.None? then None
      else Some(DateTime(year.value, month.value, day.value, hour.value, minute.value, second.value))
  }

  lemma TimestampRoundTrip(t: DateTime)
    requires t.Valid()
    ensures ParseTimestamp(FormatTimestamp(t)) == Some(t)
  {
    assert Pow10(2) == 100 && Pow10(4) == 10000;
    DigitsRoundTrip(t.year, 4);
    DigitsRoundTrip(t.month, 2);
    DigitsRoundTrip(t.day, 2);
    DigitsRoundTrip(t.hour, 2);
    DigitsRoundTrip(t.minute, 2);
    DigitsRoundTrip(t.second, 2);
    TimestampFields(Digits(t.year, 4), Digits(t.month, 2), Digits(t.day, 2),
      Digits(t.hour, 2), Digits(t.minute, 2), Digits(t.second, 2));
  }

  /** The parser reads back each field from its fixed place between the separators. */
  lemma TimestampFields(y: string, mo: string, d: string, h: string, mi: string, se: string)
    requires |y| == 4 && |mo| == 2 && |d| == 2 && |h| == 2 && |mi| == 2 && |se| == 2
    ensures var s := y + "-" + mo + "-" + d + " " + h + ":" + mi + ":" + se;
      |s| == 19 && s[4] == '-' && s[7] == '-' && s[10] == ' ' && s[13] == ':' && s[16] == ':' &&
      s[0..4] == y && s[5..7] == mo && s[8..10] == d && s[11..13] == h && s[14..16] == mi && s[17..19] == se
  {
    var s := y + "-" + mo + "-" + d + " " + h + ":" + mi + ":" + se;
    assert s[0..4] == y;
    assert s[5..7] == mo;
    assert s[8..10] == d;
    assert s[11..13] == h;
    assert s[14..16] == mi;
    assert s[17..19] == se;
  }

  /** One entry of the log file: bracketed timestamp, a space, the message, a newline. */
  function LogLine(t: DateTime, message: string): (line: string)
    ensures |line| == |message| + 23
  {
    "[" + FormatTimestamp(t) + "] " + message + "\n"
  }

  function ParseLogLine(line: string): Option<(DateTime, string)>
  {
    if |line| < 23 || line[0] != '[' || line[20] != ']' || line[21] != ' ' || line[|line| - 1] != '\n' then None
    else
      match ParseTimestamp(line[1..20])
      case None => None
      case Some(t) => Some((t, line[22..|line| - 1]))
  }

  /** A log line gives back the time and the message it was written with. */
  lemma LogLineRoundTrip(t: DateTime, message: string)
    requires t.Valid()
    ensures ParseLogLine(LogLine(t, message)) == Some((t, message))
  {
    var line := LogLine(t, message);
    assert line[1..20] == FormatTimestamp(t);
    assert line[22..|line| - 1] == message;
    TimestampRoundTrip(t);
  }
}
