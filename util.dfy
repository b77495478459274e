/**
 * The string and calendar helpers of the util package: `MaskMobile`
 * (util/s.go), `WrapCaller` (util/caller.go) and the month and day
 * boundaries of util/time.go. Strings are sequences of characters, one
 * per byte of the Go string.
 */
module Util {

  // ---------------------------------------------------------------------
  // MaskMobile
  // ---------------------------------------------------------------------

  /**
   * `MaskMobile`: the first three and last four characters around "****".
   * A non-empty input shorter than four characters makes the Go slicing
   * panic, so callers must not pass one.
   */
  function MaskMobile(mobile: string): (r: string)
    requires mobile == "" || |mobile| >= 4
    ensures mobile == "" ==> r == ""
    ensures mobile != "" ==> |r| == 11 && r[..3] == mobile[..3] && r[3..7] == "****"
                             && r[7..] == mobile[|mobile| - 4..]
  {
    if mobile == "" then "" else mobile[0..3] + "****" + mobile[|mobile| - 4..]
  }

  /** Masking an eleven-digit number hides exactly its middle four digits. */
  lemma MaskElevenDigits(mobile: string)
    requires |mobile| == 11
    ensures var r := MaskMobile(mobile);
      |r| == |mobile| && forall i :: 0 <= i < 11 ==> (r[i] == mobile[i] <==> !(3 <= i < 7) || mobile[i] == '*')
  {
    var r := MaskMobile(mobile);
    forall i | 0 <= i < 11
      ensures r[i] == mobile[i] <==> !(3 <= i < 7) || mobile[i] == '*'
    {
      if i < 3 {
        assert r[i] == r[..3][i];
      } else if i < 7 {
        assert r[i] == r[3..7][i - 3];
      } else {
        assert r[i] == r[7..][i - 7];
      }
    }
  }

  /** Masking a masked number changes nothing more. */
  lemma MaskIdempotent(mobile: string)
    requires mobile == "" || |mobile| >= 4
    ensures MaskMobile(MaskMobile(mobile)) == MaskMobile(mobile)
  {
    if mobile != "" {
      var r := MaskMobile(mobile);
      var rr := MaskMobile(r);
      assert rr[..3] == r[..3] && rr[3..7] == r[3..7] && rr[7..] == r[7..];
      assert rr == rr[..3] + rr[3..7] + rr[7..];
      assert r == r[..3] + r[3..7] + r[7..];
    }
  }

  // ---------------------------------------------------------------------
  // WrapCaller
  // ---------------------------------------------------------------------

  function DigitChar(d: nat): char
    requires d < 10
  {
    "0123456789"[d]
  }

  /** The decimal digits of `n`, most significant first. */
  function Digits(n: nat): (r: string)
    ensures |r| >= 1 && forall k :: 0 <= k < |r| ==> '0' <= r[k] <= '9'
  {
    if n < 10 then [DigitChar(n)] else Digits(n / 10) + [DigitChar(n % 10)]
  }

  /** `%d`: the decimal text of `n`, with a leading '-' when negative. */
  function Decimal(n: int): (r: string)
    ensures forall k :: 0 <= k < |r| ==> ('0' <= r[k] <= '9') || (k == 0 && r[k] == '-')
  {
    if n < 0 then "-" + Digits(-n) else Digits(n)
  }

  /**
   * The part of `file` the backward scan keeps, when it has looked at
   * positions `i` down to 1: the text after the last '/' at a position of
   * at least 1, or the whole file when there is none.
   */
  function ShortFrom(file: string, i: int): string
    requires i < |file|
    decreases i
  {
    if i <= 0 then file else if file[i] == '/' then file[i + 1..] else ShortFrom(file, i - 1)
  }

  function Short(file: string): string {
    ShortFrom(file, |file| - 1)
  }

  /** `WrapCaller`: the file name after its last '/', a colon and the line; `fn` is unused. */
  method WrapCaller(file: string, line: int, fn: string) returns (r: string)
    ensures r == Short(file) + ":" + Decimal(line)
  {
    var short := file;
    var i := |file| - 1;
    while i > 0
      invariant i < |file|
      invariant ShortFrom(file, i) == Short(file)
      invariant short == file
    {
      if file[i] == '/' {
        short := file[i + 1..];
        break;
      }
      i := i - 1;
    }
    r := short + ":" + Decimal(line);
  }

  /**
   * The kept part: the whole file when no '/' stands at a position of at
   * least 1; otherwise a shorter suffix of the file holding no '/' at all.
   */
  lemma {:induction false} ShortFromShape(file: string, i: int)
    requires -1 <= i < |file|
    requires forall j :: i < j < |file| ==> file[j] != '/'
    ensures (forall j :: 1 <= j <= i ==> file[j] != '/') ==> ShortFrom(file, i) == file
    ensures (exists j :: 1 <= j <= i && file[j] == '/') ==>
      var s := ShortFrom(file, i);
      |s| < |file| && s == file[|file| - |s|..] && '/' !in s
    decreases i
  {
    if i > 0 && file[i] != '/' {
      ShortFromShape(file, i - 1);
      if exists j :: 1 <= j <= i && file[j] == '/' {
        var j :| 1 <= j <= i && file[j] == '/';
        assert j <= i - 1;
      }
    }
  }

  /** The result of `WrapCaller` holds no '/' except, possibly, as its first character. */
  lemma WrapCallerNoSlash(file: string, line: int)
    ensures var r := Short(file) + ":" + Decimal(line);
      forall k :: 1 <= k < |r| ==> r[k] != '/'
  {
    ShortFromShape(file, |file| - 1);
    var s := Short(file);
    var r := s + ":" + Decimal(line);
    forall k | 1 <= k < |r|
      ensures r[k] != '/'
    {
      if k < |s| {
        if exists j :: 1 <= j <= |file| - 1 && file[j] == '/' {
          assert r[k] == s[k];
          assert s[k] in s;
        } else {
          assert r[k] == file[k];
        }
      } else if k > |s| {
        assert r[k] == Decimal(line)[k - |s| - 1];
      }
    }
  }

  // ---------------------------------------------------------------------
  // Month and day boundaries
  // ---------------------------------------------------------------------

  /** A `time.Time` by its calendar fields in its location; `loc` names the location. */
  datatype Time = Time(year: int, month: int, day: int, hour: int, minute: int, second: int, nsec: int, loc: string)

  predicate IsLeap(year: int) {
    year % 4 == 0 && (year % 100 != 0 || year % 400 == 0)
  }

  /** The length of a month of the (proleptic) Gregorian calendar. */
  function DaysIn(year: int, month: int): (r: int)
    requires 1 <= month <= 12
    ensures 28 <= r <= 31
  {
    if month == 2 then (if IsLeap(year) then 29 else 28)
    else if month in {4, 6, 9, 11} then 30
    else 31
  }

  /** Normalised fields, as every Go `time.Time` has. */
  predicate Valid(t: Time) {
    && 1 <= t.month <= 12
    && 1 <= t.day <= DaysIn(t.year, t.month)
    && 0 <= t.hour < 24 && 0 <= t.minute < 60 && 0 <= t.second < 60
    && 0 <= t.nsec < 1000000000
  }

  /** `a` is not after `b` (same location): the fields compared from the year down. */
  predicate NotAfter(a: Time, b: Time) {
    if a.year != b.year then a.year < b.year
    else if a.month != b.month then a.month < b.month
    else if a.day != b.day then a.day < b.day
    else if a.hour != b.hour then a.hour < b.hour
    else if a.minute != b.minute then a.minute < b.minute
    else if a.second != b.second then a.second < b.second
    else a.nsec <= b.nsec
  }

  /** `BeginningOfMonth`: the first day of the month at 00:00:00. */
  function BeginningOfMonth(t: Time): (r: Time)
    requires Valid(t)
    ensures Valid(r)
  {
    Time(t.year, t.month, 1, 0, 0, 0, 0, t.loc)
  }

  /**
   * `EndOfMonth`: the month's last day at 23:59:59. Go finds that day as
   * the day before the first of the next month; here it is the month's
   * length.
   */
  function EndOfMonth(t: Time): (r: Time)
    requires Valid(t)
    ensures Valid(r)
  {
    Time(t.year, t.month, DaysIn(t.year, t.month), 23, 59, 59, 0, t.loc)
  }

  /** `BeginningOfDay`: the same date at 00:00:00. */
  function BeginningOfDay(t: Time): (r: Time)
    requires Valid(t)
    ensures Valid(r)
  {
    Time(t.year, t.month, t.day, 0, 0, 0, 0, t.loc)
  }

  /** `EndOfDay`: the same date at 23:59:59 (nanosecond 0). */
  function EndOfDay(t: Time): (r: Time)
    requires Valid(t)
    ensures Valid(r)
  {
    Time(t.year, t.month, t.day, 23, 59, 59, 0, t.loc)
  }

  /** All four keep the year, month and location; the day ones keep the date. */
  lemma BoundariesKeepFields(t: Time)
    requires Valid(t)
    ensures var bm, em, bd, ed := BeginningOfMonth(t), EndOfMonth(t), BeginningOfDay(t), EndOfDay(t);
      && bm.year == em.year == bd.year == ed.year == t.year
      && bm.month == em.month == bd.month == ed.month == t.month
      && bm.loc == em.loc == bd.loc == ed.loc == t.loc
      && bd.day == ed.day == t.day
      && bm.day == 1 && (bm.hour, bm.minute, bm.second, bm.nsec) == (0, 0, 0, 0)
      && (em.hour, em.minute, em.second, em.nsec) == (23, 59, 59, 0)
      && t.day <= em.day && em.day + 1 > DaysIn(t.year, t.month)
  {
  }

  /** The four boundaries are idempotent, and a month's end lies in the month it ends. */
  lemma BoundariesIdempotent(t: Time)
    requires Valid(t)
    ensures BeginningOfMonth(BeginningOfMonth(t)) == BeginningOfMonth(t)
    ensures EndOfMonth(EndOfMonth(t)) == EndOfMonth(t)
    ensures BeginningOfDay(BeginningOfDay(t)) == BeginningOfDay(t)
    ensures EndOfDay(EndOfDay(t)) == EndOfDay(t)
    ensures BeginningOfMonth(EndOfMonth(t)) == BeginningOfMonth(t)
    ensures EndOfMonth(BeginningOfMonth(t)) == EndOfMonth(t)
  {
  }

  /**
   * The boundaries bracket `t`: the start of its month, then the start of
   * its day, then `t`; and `t` is not after the end of its day unless it
   * falls within the day's last second after 23:59:59.0. The end of the
   * day is not after the end of the month.
   */
  lemma BoundariesBracket(t: Time)
    requires Valid(t)
    ensures NotAfter(BeginningOfMonth(t), BeginningOfDay(t))
    ensures NotAfter(BeginningOfDay(t), t)
    ensures NotAfter(t, EndOfDay(t)) <==> !(t.hour == 23 && t.minute == 59 && t.second == 59 && t.nsec > 0)
    ensures NotAfter(EndOfDay(t), EndOfMonth(t))
  {
  }

  /** August 2020 ends on the 31st; February has 29 days in 2020 and 2000, 28 in 2021 and 1900. */
  lemma MonthLengthExamples()
    ensures EndOfMonth(Time(2020, 8, 10, 0, 0, 0, 0, "UTC")) == Time(2020, 8, 31, 23, 59, 59, 0, "UTC")
    ensures BeginningOfMonth(Time(2020, 8, 10, 0, 0, 0, 0, "UTC")) == Time(2020, 8, 1, 0, 0, 0, 0, "UTC")
    ensures DaysIn(2020, 2) == 29 && DaysIn(2000, 2) == 29 && DaysIn(2021, 2) == 28 && DaysIn(1900, 2) == 28
  {
  }
}
