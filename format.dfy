/** Text rendering of numbers and calendar times: JavaScript's decimal conversion of
    an integer, the two-digit padding `toFixed` of app.js and the timestamps built
    from it. */
module Format {

  /** A calendar date and time, as `orbitsjs.timeGregorian` returns it. */
  datatype Greg = Greg(year: int, month: int, mday: int, hour: int, minute: int, second: real)

  predicate IsDigit(c: char)
  {
    '0' <= c <= '9'
  }

  /** Every character of `s` is a decimal digit. */
  predicate IsDigits(s: string)
  {
    forall i :: 0 <= i < |s| ==> IsDigit(s[i])
  }

  function DigitChar(d: int): (c: char)
    requires 0 <= d < 10
    ensures IsDigit(c)
    ensures c as int - '0' as int == d
  {
    ('0' as int + d) as char
  }

  /** The decimal representation of a natural number, without leading zeros. */
  function NatToString(n: nat): (s: string)
    ensures 1 <= |s|
    ensures IsDigits(s)
    ensures n < 10 <==> |s| == 1
    decreases n
  {
    if n < 10 then [DigitChar(n)] else NatToString(n / 10) + [DigitChar(n % 10)]
  }

  /** JavaScript's conversion of an integer to a string (`String(n)`). */
  function IntToString(n: int): (s: string)
    ensures 1 <= |s|
    ensures n >= 0 ==> s == NatToString(n)
    ensures n < 0 ==> s[0] == '-' && s[1..] == NatToString(-n)
  {
    if n < 0 then "-" + NatToString(-n) else NatToString(n)
  }

  /** The number a string of decimal digits denotes (leading zeros allowed). */
  function DigitsValue(s: string): nat
    requires IsDigits(s)
  {
    if s == [] then 0 else DigitsValue(s[..|s| - 1]) * 10 + (s[|s| - 1] as int - '0' as int)
  }

  /** Reading the decimal representation of `n` gives back `n`. */
  lemma {:induction false} NatToStringRoundTrip(n: nat)
    ensures DigitsValue(NatToString(n)) == n
    decreases n
  {
    if n >= 10 {
      NatToStringRoundTrip(n / 10);
      var s := NatToString(n);
      assert s[..|s| - 1] == NatToString(n / 10);
    }
  }

  /** The number of digits of `n` is the number of decimal places it needs. */
  lemma NatToStringLength(n: nat)
    ensures 10 <= n < 100 ==> |NatToString(n)| == 2
    ensures 1000 <= n < 10000 ==> |NatToString(n)| == 4
  {
    if n >= 10 {
      assert NatToString(n) == NatToString(n / 10) + [DigitChar(n % 10)];
      if n >= 1000 {
        assert NatToString(n / 10) == NatToString(n / 100) + [DigitChar((n / 10) % 10)];
        assert NatToString(n / 100) == NatToString(n / 1000) + [DigitChar((n / 100) % 10)];
      }
    }
  }

  /** app.js `toFixed`: a value below ten is prefixed with "0". */
  function ToFixed(n: int): (s: string)
    ensures n < 10 ==> |s| >= 2 && s[0] == '0' && s[1..] == IntToString(n)
    ensures n >= 10 ==> s == IntToString(n)
  {
    if n < 10 then "0" + IntToString(n) else IntToString(n)
  }

  /** A non-negative field is written with at least two digits and reads back as itself;
      a field below 100 is written with exactly two. */
  lemma ToFixedTwoDigits(n: nat)
    ensures 2 <= |ToFixed(n)|
    ensures n < 100 ==> |ToFixed(n)| == 2
    ensures IsDigits(ToFixed(n))
    ensures DigitsValue(ToFixed(n)) == n
  {
    var s := ToFixed(n);
    NatToStringRoundTrip(n);
    NatToStringLength(n);
    if n < 10 {
      var d := NatToString(n);
      assert s == ['0'] + d;
      assert s[..1] == ['0'];
      assert DigitsValue(['0']) == 0 by {
        assert ['0'][..0] == [];
      }
      assert s[..|s| - 1] == ['0'];
      assert DigitsValue(d) == n;
    }
  }

  /** Three fields joined by two separators. */
  function Join3(a: string, s1: char, b: string, s2: char, c: string): (r: string)
    ensures |r| == |a| + |b| + |c| + 2
    ensures r[..|a|] == a && r[|a|] == s1 && r[|a| + 1..|a| + 1 + |b|] == b
    ensures r[|a| + 1 + |b|] == s2 && r[|a| + |b| + 2..] == c
  {
    a + [s1] + b + [s2] + c
  }

  /** The date half of a timestamp, `YYYY-MM-DD`. */
  function DatePart(g: Greg): string
  {
    Join3(IntToString(g.year), '-', ToFixed(g.month), '-', ToFixed(g.mday))
  }

  /** The time half of a timestamp, `HH:MM:SS`, the seconds rounded down. */
  function TimePart(g: Greg): string
  {
    Join3(ToFixed(g.hour), ':', ToFixed(g.minute), ':', ToFixed(g.second.Floor))
  }

  /** app.js `createTimestamp`: `YYYY-MM-DDTHH:MM:SS`. */
  function Timestamp(g: Greg): string
  {
    DatePart(g) + "T" + TimePart(g)
  }

  /** Both halves of a timestamp have a fixed width when every field fits. */
  lemma PartsFields(g: Greg)
    requires 1000 <= g.year < 10000
    requires 0 <= g.month < 100 && 0 <= g.mday < 100
    requires 0 <= g.hour < 100 && 0 <= g.minute < 100
    requires 0.0 <= g.second < 100.0
    ensures |DatePart(g)| == 10 && |TimePart(g)| == 8
    ensures DatePart(g)[4] == '-' && DatePart(g)[7] == '-'
    ensures TimePart(g)[2] == ':' && TimePart(g)[5] == ':'
    ensures IsDigits(DatePart(g)[..4]) && DigitsValue(DatePart(g)[..4]) == g.year
    ensures IsDigits(DatePart(g)[5..7]) && DigitsValue(DatePart(g)[5..7]) == g.month
    ensures IsDigits(DatePart(g)[8..]) && DigitsValue(DatePart(g)[8..]) == g.mday
    ensures IsDigits(TimePart(g)[..2]) && DigitsValue(TimePart(g)[..2]) == g.hour
    ensures IsDigits(TimePart(g)[3..5]) && DigitsValue(TimePart(g)[3..5]) == g.minute
    ensures IsDigits(TimePart(g)[6..]) && DigitsValue(TimePart(g)[6..]) == g.second.Floor
  {
    NatToStringLength(g.year);
    NatToStringRoundTrip(g.year);
    ToFixedTwoDigits(g.month);
    ToFixedTwoDigits(g.mday);
    ToFixedTwoDigits(g.hour);
    ToFixedTwoDigits(g.minute);
    ToFixedTwoDigits(g.second.Floor);
  }

  /** Where the fields of a date half and a time half land once joined by `T`. */
  lemma TimestampSlices(dp: string, tp: string)
    requires |dp| == 10 && |tp| == 8
    ensures var ts := dp + "T" + tp;
            && |ts| == 19 && ts[10] == 'T'
            && ts[4] == dp[4] && ts[7] == dp[7] && ts[13] == tp[2] && ts[16] == tp[5]
            && ts[..4] == dp[..4] && ts[5..7] == dp[5..7] && ts[8..10] == dp[8..]
            && ts[11..13] == tp[..2] && ts[14..16] == tp[3..5] && ts[17..19] == tp[6..]
  {
    var ts := dp + "T" + tp;
    assert ts[..10] == dp;
    assert ts[11..] == tp;
  }

  /** For a four-digit year and fields below 100, the timestamp has the fixed layout
      `YYYY-MM-DDTHH:MM:SS`: every field occupies its own columns and reads back as
      the calendar value, so month, day, hour, minute and second have two digits. */
  lemma TimestampFields(g: Greg)
    requires 1000 <= g.year < 10000
    requires 0 <= g.month < 100 && 0 <= g.mday < 100
    requires 0 <= g.hour < 100 && 0 <= g.minute < 100
    requires 0.0 <= g.second < 100.0
    ensures |Timestamp(g)| == 19
    ensures Timestamp(g)[4] == '-' && Timestamp(g)[7] == '-' && Timestamp(g)[10] == 'T'
    ensures Timestamp(g)[13] == ':' && Timestamp(g)[16] == ':'
    ensures IsDigits(Timestamp(g)[..4]) && DigitsValue(Timestamp(g)[..4]) == g.year
    ensures IsDigits(Timestamp(g)[5..7]) && DigitsValue(Timestamp(g)[5..7]) == g.month
    ensures IsDigits(Timestamp(g)[8..10]) && DigitsValue(Timestamp(g)[8..10]) == g.mday
    ensures IsDigits(Timestamp(g)[11..13]) && DigitsValue(Timestamp(g)[11..13]) == g.hour
    ensures IsDigits(Timestamp(g)[14..16]) && DigitsValue(Timestamp(g)[14..16]) == g.minute
    ensures IsDigits(Timestamp(g)[17..19]) && DigitsValue(Timestamp(g)[17..19]) == g.second.Floor
  {
    PartsFields(g);
    TimestampSlices(DatePart(g), TimePart(g));
  }

  /** Captions.js line 34: the hour as a plain number, a colon and the padded minute. */
  function HourMinute(g: Greg): string
  {
    IntToString(g.hour) + ":" + ToFixed(g.minute)
  }

  /** For an hour between 10 and 99 and a minute below 100, `HH:MM` with both fields
      reading back. */
  lemma HourMinuteFields(g: Greg)
    requires 10 <= g.hour < 100 && 0 <= g.minute < 100
    ensures |HourMinute(g)| == 5 && HourMinute(g)[2] == ':'
    ensures IsDigits(HourMinute(g)[..2]) && DigitsValue(HourMinute(g)[..2]) == g.hour
    ensures IsDigits(HourMinute(g)[3..]) && DigitsValue(HourMinute(g)[3..]) == g.minute
  {
    NatToStringLength(g.hour);
    NatToStringRoundTrip(g.hour);
    ToFixedTwoDigits(g.minute);
    var hm := HourMinute(g);
    assert hm == IntToString(g.hour) + ":" + ToFixed(g.minute);
    assert hm[..2] == IntToString(g.hour);
    assert hm[3..] == ToFixed(g.minute);
  }
}
