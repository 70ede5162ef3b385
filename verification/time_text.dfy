/** Clock-time text and minute arithmetic: `timeToMinutes`, `minutesToTime`
    and `roundToNearest5` of the scheduling board, together with the pieces of
    JavaScript they rely on (`Number`, `String`, `padStart`, `split`, `%`,
    `Math.round`), written out over exact integers and reals. */
module TimeText {

  // ---------------------------------------------------------------------
  // Decimal digits
  // ---------------------------------------------------------------------

  predicate IsDigit(c: char) {
    '0' <= c <= '9'
  }

  predicate IsDigits(s: string) {
    forall i :: 0 <= i < |s| ==> IsDigit(s[i])
  }

  function DigitValue(c: char): nat
    requires IsDigit(c)
  {
    c as int - '0' as int
  }

  function DigitChar(d: nat): (c: char)
    requires d < 10
    ensures IsDigit(c) && DigitValue(c) == d
  {
    (d + '0' as int) as char
  }

  lemma DigitCharOfValue(c: char)
    requires IsDigit(c)
    ensures DigitChar(DigitValue(c)) == c
  {
  }

  /** The value of a string of decimal digits; the empty string is 0. */
  function DigitsValue(s: string): nat
    requires IsDigits(s)
  {
    if s == [] then 0 else DigitsValue(s[..|s| - 1]) * 10 + DigitValue(s[|s| - 1])
  }

  /** `String(n)` for a non-negative integer: shortest decimal form. */
  function NatToText(n: nat): (s: string)
    ensures IsDigits(s) && 1 <= |s|
    ensures |s| == 1 <==> n < 10
  {
    if n < 10 then [DigitChar(n)] else NatToText(n / 10) + [DigitChar(n % 10)]
  }

  /** `String(n)` for any integer: a minus sign before the digits of `-n`. */
  function IntToText(n: int): (s: string)
    ensures 1 <= |s|
    ensures n < 0 ==> |s| >= 2 && s[0] == '-' && s[1..] == NatToText(-n)
    ensures n >= 0 ==> s == NatToText(n)
  {
    if n < 0 then "-" + NatToText(-n) else NatToText(n)
  }

  /** `s.padStart(2, '0')`. */
  function PadStart2(s: string): (r: string)
    ensures |r| == if |s| < 2 then 2 else |s|
    ensures r[|r| - |s|..] == s
    ensures forall i :: 0 <= i < |r| - |s| ==> r[i] == '0'
  {
    if |s| == 0 then "00" else if |s| == 1 then "0" + s else s
  }

  /** `Number(s)` on the texts this program produces and parses: an
      optional minus sign followed by decimal digits (the empty text is 0).
      JavaScript gives NaN for any other text; the model reads it as 0. */
  function TextToNumber(s: string): int
  {
    if IsDigits(s) then DigitsValue(s)
    else if |s| >= 2 && s[0] == '-' && IsDigits(s[1..]) then -(DigitsValue(s[1..]) as int)
    else 0
  }

  /** JavaScript's `a % 60`: the remainder takes the sign of the dividend
      (Dafny's `%` never goes negative). */
  function JsRem60(a: int): (r: int)
    ensures -60 < r < 60
    ensures a >= 0 ==> r == a % 60
    ensures a < 0 ==> r <= 0 && r == -((-a) % 60)
  {
    if a >= 0 then a % 60 else -((-a) % 60)
  }

  // ---------------------------------------------------------------------
  // `split(':')` — the first and second fields of a text
  // ---------------------------------------------------------------------

  /** The text before the first `c` (all of `s` when `c` does not occur). */
  function UpTo(s: string, c: char): (r: string)
    ensures c !in r
    ensures |r| <= |s| && r == s[..|r|]
    ensures c !in s ==> r == s
  {
    if s == [] then [] else if s[0] == c then [] else [s[0]] + UpTo(s[1..], c)
  }

  /** The text after the first `c`. */
  function After(s: string, c: char): (r: string)
    requires c in s
    ensures |r| < |s| && r == s[|s| - |r|..]
  {
    if s[0] == c then s[1..] else After(s[1..], c)
  }

  lemma {:induction false} SplitAtFirst(a: string, c: char, b: string)
    requires c !in a
    ensures c in a + [c] + b
    ensures UpTo(a + [c] + b, c) == a
    ensures After(a + [c] + b, c) == b
  {
    var s := a + [c] + b;
    if a != [] {
      assert s[0] == a[0] != c;
      assert s[1..] == a[1..] + [c] + b;
      SplitAtFirst(a[1..], c, b);
      assert UpTo(s, c) == [a[0]] + UpTo(s[1..], c);
      assert After(s, c) == After(s[1..], c);
      assert a == [a[0]] + a[1..];
    } else {
      assert s[0] == c && s[1..] == b;
    }
  }

  // ---------------------------------------------------------------------
  // The three utilities
  // ---------------------------------------------------------------------

  /** `timeToMinutes`: the empty text, or a text without `':'`, is 0;
      otherwise hours (first field) times 60 plus minutes (second field);
      fields after the second are ignored. */
  function TimeToMinutes(t: string): int
  {
    if t == [] || ':' !in t then 0
    else TextToNumber(UpTo(t, ':')) * 60 + TextToNumber(UpTo(After(t, ':'), ':'))
  }

  /** `minutesToTime` on the integer inputs every caller passes (where
      `Math.round` is the identity): the hour is `Math.floor(m / 60)` and the
      minute `m % 60` with JavaScript's remainder, each padded to two places. */
  function MinutesToTime(m: int): string
  {
    PadStart2(IntToText(m / 60)) + ":" + PadStart2(IntToText(JsRem60(m)))
  }

  /** `Math.round(v)`: the nearest integer, halves rounding up. */
  function JsRound(v: real): (r: int)
    ensures v - 0.5 < r as real <= v + 0.5
  {
    (v + 0.5).Floor
  }

  /** `roundToNearest5`: the nearest multiple of 5, halves rounding up. */
  function RoundToNearest5(x: real): (r: int)
    ensures r % 5 == 0
    ensures x - 2.5 < r as real <= x + 2.5
  {
    var k := JsRound(x / 5.0);
    assert (k * 5) as real == k as real * 5.0;
    k * 5
  }

  // ---------------------------------------------------------------------
  // Properties of rounding
  // ---------------------------------------------------------------------

  /** The rounding window (x - 2.5, x + 2.5] holds exactly one multiple of 5,
      so it characterises `RoundToNearest5` completely. */
  lemma RoundToNearest5Unique(x: real, m: int)
    requires m % 5 == 0
    requires x - 2.5 < m as real <= x + 2.5
    ensures RoundToNearest5(x) == m
  {
    var r := RoundToNearest5(x);
    assert -5 < r - m < 5;
    assert (r - m) % 5 == 0;
  }

  lemma RoundToNearest5Idempotent(x: real)
    ensures RoundToNearest5(RoundToNearest5(x) as real) == RoundToNearest5(x)
  {
    var r := RoundToNearest5(x);
    RoundToNearest5Unique(r as real, r);
  }

  /** A value at or above a multiple of 5 never rounds below it. */
  lemma RoundToNearest5AtLeast(x: real, lo: int)
    requires lo % 5 == 0
    requires lo as real <= x
    ensures lo <= RoundToNearest5(x)
  {
    var r := RoundToNearest5(x);
    assert r > lo - 3;
    assert (r - lo) % 5 == 0;
  }

  // ---------------------------------------------------------------------
  // Digit round trips
  // ---------------------------------------------------------------------

  lemma {:induction false} DigitsRoundTrip(n: nat)
    ensures DigitsValue(NatToText(n)) == n
  {
    if n >= 10 {
      var s := NatToText(n);
      DigitsRoundTrip(n / 10);
      assert s[..|s| - 1] == NatToText(n / 10);
    }
  }

  lemma {:induction false} LeadingZero(s: string)
    requires IsDigits(s)
    ensures IsDigits("0" + s) && DigitsValue("0" + s) == DigitsValue(s)
  {
    if s != [] {
      var z := "0" + s;
      assert z[..|z| - 1] == "0" + s[..|s| - 1];
      LeadingZero(s[..|s| - 1]);
    }
  }

  /** `Number(String(n).padStart(2, '0')) == n` for every integer `n`. */
  lemma NumberOfPadded(n: int)
    ensures ':' !in PadStart2(IntToText(n))
    ensures TextToNumber(PadStart2(IntToText(n))) == n
  {
    var s := IntToText(n);
    if n >= 0 {
      DigitsRoundTrip(n);
      if |s| == 1 {
        LeadingZero(s);
      }
    } else {
      DigitsRoundTrip(-n);
      assert !IsDigit(s[0]);
    }
  }

  /** `Number(String(n)) == n`: an integer survives being written out and
      read back (the drag-and-drop payload carries ids this way). */
  lemma NumberOfText(n: int)
    ensures TextToNumber(IntToText(n)) == n
  {
    var s := IntToText(n);
    if n >= 0 {
      DigitsRoundTrip(n);
    } else {
      DigitsRoundTrip(-n);
      assert !IsDigit(s[0]);
    }
  }

  /** Parsing the text of `m` gives back the hour times 60 plus the
      remainder; for negative `m` the two signs do not cancel. */
  lemma ParsedMinutes(m: int)
    ensures TimeToMinutes(MinutesToTime(m)) == (m / 60) * 60 + JsRem60(m)
  {
    var a := PadStart2(IntToText(m / 60));
    var b := PadStart2(IntToText(JsRem60(m)));
    NumberOfPadded(m / 60);
    NumberOfPadded(JsRem60(m));
    SplitAtFirst(a, ':', b);
    assert MinutesToTime(m) == a + [':'] + b;
  }

  /** Round trip over minute counts: exact for every non-negative count. */
  lemma MinutesRoundTrip(m: int)
    ensures m >= 0 ==> TimeToMinutes(MinutesToTime(m)) == m
  {
    ParsedMinutes(m);
  }

  /** The minute at which an interval of `length` minutes that starts at
      minute `start` ends. */
  function EndMinute(start: int, length: int): int {
    start + length
  }

  /** Two texts written from non-negative counts read back `dur` apart
      when the counts are `dur` apart; `dur` itself may be negative. */
  lemma ShiftReadsBack(start: int, dur: int)
    ensures start >= 0 ==> TimeToMinutes(MinutesToTime(start)) == start
    ensures start >= 0 && start + dur >= 0 ==>
      TimeToMinutes(MinutesToTime(EndMinute(start, dur))) - TimeToMinutes(MinutesToTime(start)) == dur
  {
    MinutesRoundTrip(start);
    MinutesRoundTrip(EndMinute(start, dur));
  }

  /** For a negative count the text reads back no later than the count
      itself, and exactly 60 minutes earlier unless it is a whole hour. */
  lemma NegativeMinutesReadBackEarlier(m: int)
    requires m < 0
    ensures TimeToMinutes(MinutesToTime(m)) == if m % 60 == 0 then m else m - 60
  {
    ParsedMinutes(m);
    FloorAndTruncatedRemainder(m);
  }

  lemma FloorAndTruncatedRemainder(m: int)
    requires m < 0
    ensures (m / 60) * 60 + JsRem60(m) == if m % 60 == 0 then m else m - 60
  {
    var h, r := m / 60, m % 60;
    assert m == 60 * h + r;
    if r == 0 {
      DivModUnique(-m, -h, 0);
    } else {
      DivModUnique(-m, -h - 1, 60 - r);
    }
  }

  /** Euclidean division by 60 is determined by quotient and remainder. */
  lemma DivModUnique(a: int, q: int, r: int)
    requires a == 60 * q + r && 0 <= r < 60
    ensures a / 60 == q && a % 60 == r
  {
  }

  lemma HourAndMinute(h: int, mm: int)
    requires 0 <= mm < 60
    ensures (h * 60 + mm) / 60 == h && (h * 60 + mm) % 60 == mm
  {
  }

  lemma ParsedNoLater(m: int)
    ensures TimeToMinutes(MinutesToTime(m)) <= m
  {
    if m >= 0 {
      MinutesRoundTrip(m);
    } else {
      NegativeMinutesReadBackEarlier(m);
    }
  }

  /** 585 minutes is written "09:45". */
  lemma NineFortyFiveText(m: int)
    requires m == 585
    ensures MinutesToTime(m) == "09:45"
  {
    IsClockText0945();
    Reads0945();
    ClockRoundTrip("09:45");
  }

  lemma IsClockText0945()
    ensures IsClockText("09:45")
  {
    assert DigitValue('9') == 9 && DigitValue('4') == 4 && DigitValue('5') == 5;
  }

  /** Minus eighty minutes is written "-2:-20", which reads back as -140. */
  lemma NegativeTextExample()
    ensures MinutesToTime(-80) == "-2:-20"
    ensures TimeToMinutes("-2:-20") == -140
  {
    assert -80 / 60 == -2;
    assert JsRem60(-80) == -20;
    assert NatToText(2) == "2";
    assert NatToText(20) == NatToText(2) + "0";
    assert IntToText(-2) == "-2";
    assert IntToText(-20) == "-20";
    NegativeMinutesReadBackEarlier(-80);
  }

  // ---------------------------------------------------------------------
  // "HH:MM" clock texts
  // ---------------------------------------------------------------------

  /** A zero-padded 24-hour clock text, hours 00-23 and minutes 00-59. */
  predicate IsClockText(t: string) {
    && |t| == 5
    && IsDigit(t[0]) && IsDigit(t[1]) && t[2] == ':' && IsDigit(t[3]) && IsDigit(t[4])
    && DigitValue(t[0]) * 10 + DigitValue(t[1]) < 24
    && DigitValue(t[3]) * 10 + DigitValue(t[4]) < 60
  }

  lemma TwoDigitText(v: nat)
    requires v < 100
    ensures PadStart2(IntToText(v)) == [DigitChar(v / 10), DigitChar(v % 10)]
  {
    if v >= 10 {
      assert NatToText(v / 10) == [DigitChar(v / 10)];
    }
  }

  lemma TwoDigitValue(c0: char, c1: char)
    requires IsDigit(c0) && IsDigit(c1)
    ensures IsDigits([c0, c1])
    ensures DigitsValue([c0, c1]) == DigitValue(c0) * 10 + DigitValue(c1)
  {
    assert [c0, c1][..1] == [c0];
    assert [c0][..0] == [];
    assert DigitsValue([c0]) == DigitValue(c0);
  }

  /** A clock text reads as hours times 60 plus minutes, within one day. */
  lemma ClockTextMinutes(t: string)
    requires IsClockText(t)
    ensures TimeToMinutes(t) == (DigitValue(t[0]) * 10 + DigitValue(t[1])) * 60
                                + DigitValue(t[3]) * 10 + DigitValue(t[4])
    ensures 0 <= TimeToMinutes(t) <= 1439
  {
    TwoDigitValue(t[0], t[1]);
    TwoDigitValue(t[3], t[4]);
    assert t == [t[0], t[1]] + [':'] + [t[3], t[4]];
    SplitAtFirst([t[0], t[1]], ':', [t[3], t[4]]);
  }

  /** `minutesToTime(timeToMinutes(t)) == t` for every clock text. */
  lemma ClockRoundTrip(t: string)
    requires IsClockText(t)
    ensures MinutesToTime(TimeToMinutes(t)) == t
  {
    ClockTextMinutes(t);
    var d0, d1, d3, d4 := DigitValue(t[0]), DigitValue(t[1]), DigitValue(t[3]), DigitValue(t[4]);
    var h := d0 * 10 + d1;
    var mm := d3 * 10 + d4;
    var m := TimeToMinutes(t);
    assert m == h * 60 + mm;
    HourAndMinute(h, mm);
    assert JsRem60(m) == mm;
    TwoDigitText(h);
    TwoDigitText(mm);
    assert h / 10 == d0 && h % 10 == d1;
    assert mm / 10 == d3 && mm % 10 == d4;
    DigitCharOfValue(t[0]);
    DigitCharOfValue(t[1]);
    DigitCharOfValue(t[3]);
    DigitCharOfValue(t[4]);
    assert PadStart2(IntToText(m / 60)) == [t[0], t[1]];
    assert PadStart2(IntToText(JsRem60(m))) == [t[3], t[4]];
    assert t == [t[0], t[1]] + ":" + [t[3], t[4]];
  }

  /** Every minute of the day is written as a clock text. */
  lemma DayMinuteIsClockText(m: int)
    requires 0 <= m <= 1439
    ensures IsClockText(MinutesToTime(m))
  {
    var h, mm := m / 60, m % 60;
    assert h < 24 && mm < 60;
    assert JsRem60(m) == mm;
    TwoDigitText(h);
    TwoDigitText(mm);
    var t := MinutesToTime(m);
    var c0, c1, c3, c4 := DigitChar(h / 10), DigitChar(h % 10), DigitChar(mm / 10), DigitChar(mm % 10);
    assert t == [c0, c1] + ":" + [c3, c4];
    assert t[0] == c0 && t[1] == c1 && t[2] == ':' && t[3] == c3 && t[4] == c4;
    TwoDigitChars(h);
    TwoDigitChars(mm);
  }

  /** The two digits `TwoDigitText` writes read back as the number. */
  lemma TwoDigitChars(v: nat)
    requires v < 100
    ensures DigitValue(DigitChar(v / 10)) * 10 + DigitValue(DigitChar(v % 10)) == v
  {
  }

  // The clock texts of the seed and of the conflict examples, one lemma
  // each so that no proof has to read more than one of them at a time.

  lemma Reads0000()
    ensures TimeToMinutes("00:00") == 0
  {
    ClockTextMinutes("00:00");
  }

  lemma Reads0800()
    ensures TimeToMinutes("08:00") == 480
  {
    ClockTextMinutes("08:00");
  }

  lemma Reads0830()
    ensures TimeToMinutes("08:30") == 510
  {
    ClockTextMinutes("08:30");
  }

  lemma Reads0945()
    ensures TimeToMinutes("09:45") == 585
  {
    ClockTextMinutes("09:45");
  }

  lemma Reads0900()
    ensures TimeToMinutes("09:00") == 540
  {
    ClockTextMinutes("09:00");
  }

  lemma Reads1000()
    ensures TimeToMinutes("10:00") == 600
  {
    ClockTextMinutes("10:00");
  }

  lemma Reads1030()
    ensures TimeToMinutes("10:30") == 630
  {
    ClockTextMinutes("10:30");
  }

  lemma Reads1100()
    ensures TimeToMinutes("11:00") == 660
  {
    ClockTextMinutes("11:00");
  }

  lemma Reads1200()
    ensures TimeToMinutes("12:00") == 720
  {
    ClockTextMinutes("12:00");
  }

  lemma Reads1300()
    ensures TimeToMinutes("13:00") == 780
  {
    ClockTextMinutes("13:00");
  }

  lemma Reads1330()
    ensures TimeToMinutes("13:30") == 810
  {
    ClockTextMinutes("13:30");
  }

  lemma Reads1400()
    ensures TimeToMinutes("14:00") == 840
  {
    ClockTextMinutes("14:00");
  }

  lemma Reads1500()
    ensures TimeToMinutes("15:00") == 900
  {
    ClockTextMinutes("15:00");
  }

  lemma Reads1530()
    ensures TimeToMinutes("15:30") == 930
  {
    ClockTextMinutes("15:30");
  }

  lemma Reads1600()
    ensures TimeToMinutes("16:00") == 960
  {
    ClockTextMinutes("16:00");
  }

  lemma Reads1730()
    ensures TimeToMinutes("17:30") == 1050
  {
    ClockTextMinutes("17:30");
  }

  lemma Reads0930()
    ensures TimeToMinutes("09:30") == 570
  {
    ClockTextMinutes("09:30");
  }
}
