/**
  The texts that to_str_ prints and set_ft reads, src/Generics/Time.cpp and src/Generics/Time.hpp,
  character by character and without the formats and tables that both sides share.
 */
module TimeText {
  import opened Calendar
  import opened TimeFormat
  import opened Wrappers

  // ---------------------------------------------------------------- names and numbers

  function MonthName(mon: int): string
    requires 0 <= mon < 12
  {
    match mon
    case 0 => "January"
    case 1 => "February"
    case 2 => "March"
    case 3 => "April"
    case 4 => "May"
    case 5 => "June"
    case 6 => "July"
    case 7 => "August"
    case 8 => "September"
    case 9 => "October"
    case 10 => "November"
    case _ => "December"
  }

  function DayName(wday: int): string
    requires 0 <= wday < 7
  {
    match wday
    case 0 => "Sunday"
    case 1 => "Monday"
    case 2 => "Tuesday"
    case 3 => "Wednesday"
    case 4 => "Thursday"
    case 5 => "Friday"
    case _ => "Saturday"
  }

  function Digit(n: int): char
    requires 0 <= n < 10
  {
    match n
    case 0 => '0'
    case 1 => '1'
    case 2 => '2'
    case 3 => '3'
    case 4 => '4'
    case 5 => '5'
    case 6 => '6'
    case 7 => '7'
    case 8 => '8'
    case _ => '9'
  }

  function Two(n: int): (s: string)
    requires 0 <= n < 100
    ensures |s| == 2
  {
    [Digit(n / 10), Digit(n % 10)]
  }

  function Four(n: int): (s: string)
    requires 0 <= n < 10000
    ensures |s| == 4
  {
    Two(n / 100) + Two(n % 100)
  }

  lemma DigitIs(n: int)
    requires n >= 0
    ensures DigitOf(n) == Digit(n % 10)
  {
  }

  lemma TwoIs(n: int)
    requires 0 <= n < 100
    ensures Digits(n, 2) == Two(n)
  {
    TwoDigits(n);
    DigitIs(n);
    DigitIs(n / 10);
    hide Digits, DigitOf, Digit;
  }

  lemma {:induction false} DigitsSplit(n: int, k: nat)
    requires n >= 0
    ensures Digits(n, k + 2) == Digits(n / 100, k) + Digits(n % 100, 2)
  {
    hide DigitOf;
    TwoDigits(n);
    assert Digits(n, k + 2) == Digits(n / 10, k + 1) + [DigitOf(n)];
    assert Digits(n / 10, k + 1) == Digits(n / 10 / 10, k) + [DigitOf(n / 10)];
    assert n / 10 / 10 == n / 100;
    LowDigits(n);
    TwoDigits(n % 100);
  }

  lemma LowDigits(n: int)
    requires n >= 0
    ensures DigitOf(n) == DigitOf(n % 100) && DigitOf(n / 10) == DigitOf(n % 100 / 10)
  {
    hide DigitOf, Digit;
    DigitIs(n);
    DigitIs(n % 100);
    DigitIs(n / 10);
    DigitIs(n % 100 / 10);
    Modulo100(n);
  }

  lemma Modulo100(n: int)
    ensures n % 100 % 10 == n % 10 && n / 10 % 10 == n % 100 / 10 % 10
  {
    var q := n / 100;
    assert n == 100 * q + n % 100;
    assert n / 10 == 10 * q + n % 100 / 10;
  }

  lemma FourIs(n: int)
    requires 0 <= n < 10000
    ensures Digits(n, 4) == Four(n)
  {
    hide Digits, Two;
    DigitsSplit(n, 2);
    TwoIs(n / 100);
    TwoIs(n % 100);
  }

  lemma SixIs(n: int)
    requires 0 <= n < 1000000
    ensures Digits(n, 6) == Two(n / 10000) + Two(n / 100 % 100) + Two(n % 100)
  {
    hide Digits, Two;
    DigitsSplit(n, 4);
    FourIs(n / 100);
    TwoIs(n % 100);
    assert n / 100 / 100 == n / 10000;
  }

  // ---------------------------------------------------------------- what each directive prints

  /** Every directive prints its own field, in decimal digits or as a name. */
  lemma DirectivesPrint(et: Fields)
    requires InRange(et)
    ensures Piece(et, 'Y') == Some(Four(et.year + 1900)) && Piece(et, 'm') == Some(Two(et.mon + 1))
    ensures Piece(et, 'd') == Some(Two(et.mday)) && Piece(et, 'H') == Some(Two(et.hour))
    ensures Piece(et, 'M') == Some(Two(et.min)) && Piece(et, 'S') == Some(Two(et.sec))
    ensures Piece(et, 'q') == Some(Two(et.usec / 10000) + Two(et.usec / 100 % 100) + Two(et.usec % 100))
    ensures Piece(et, 'e') == Some(if et.mday < 10 then [' ', Digit(et.mday)] else Two(et.mday))
    ensures Piece(et, 'B') == Some(MonthName(et.mon)) && Piece(et, 'A') == Some(DayName(et.wday))
    ensures Piece(et, 'b') == Piece(et, 'h') == Some(MonthName(et.mon)[..3])
    ensures Piece(et, 'a') == Some(DayName(et.wday)[..3])
    ensures Piece(et, '%') == Some("%")
  {
    hide Digits, Two, Four, SpacePadded, Digit;
    FourIs(et.year + 1900);
    TwoIs(et.mon + 1);
    TwoIs(et.mday);
    TwoIs(et.hour);
    TwoIs(et.min);
    TwoIs(et.sec);
    SixIs(et.usec);
    PaddedIs(et.mday);
    MonthNames(et.mon);
    DayNames(et.wday);
  }

  lemma PaddedIs(day: int)
    requires 1 <= day <= 31
    ensures SpacePadded(day) == if day < 10 then [' ', Digit(day)] else Two(day)
  {
    if day >= 10 {
      TensDigit(day);
      TwoIs(day);
    } else {
      DigitIs(day);
    }
  }

  lemma MonthNames(mon: int)
    requires 0 <= mon < 12
    ensures FullMonths()[mon] == MonthName(mon) && ShortMonths()[mon] == MonthName(mon)[..3]
  {
  }

  lemma DayNames(wday: int)
    requires 0 <= wday < 7
    ensures FullDays()[wday] == DayName(wday) && ShortDays()[wday] == DayName(wday)[..3]
  {
  }

  /** "%F %T" is year, month, day, hour, minute and second in that order. */
  lemma FtText(et: Fields)
    requires InRange(et)
    ensures Render(et, "%F %T") ==
            Some(Four(et.year + 1900) + ['-'] + Two(et.mon + 1) + ['-'] + Two(et.mday) + [' ']
                 + Two(et.hour) + [':'] + Two(et.min) + [':'] + Two(et.sec))
  {
    hide Piece, Render, Two, Four;
    DirectivesPrint(et);
    RenderThree(et, 'Y', 'm', 'd', '-');
    RenderThree(et, 'H', 'M', 'S', ':');
    FtIsBoth(et);
    Flat3(Four(et.year + 1900), Two(et.mon + 1), Two(et.mday), ['-']);
    Flat3(Two(et.hour), Two(et.min), Two(et.sec), [':']);
    Flat2(Four(et.year + 1900) + ['-'] + Two(et.mon + 1) + ['-'] + Two(et.mday) + [' '],
          Two(et.hour), [':'], Two(et.min), [':'], Two(et.sec));
  }

  lemma Flat3(a: string, b: string, c: string, sep: string)
    ensures a + (sep + (b + (sep + (c + [])))) == a + sep + b + sep + c
  {
  }

  lemma Flat2(a: string, b: string, c: string, d: string, e: string, f: string)
    ensures a + (b + c + d + e + f) == a + b + c + d + e + f
  {
  }

  lemma FtIsBoth(et: Fields)
    ensures Render(et, DATE).Some? && Render(et, CLOCK).Some?
    ensures Render(et, "%F %T") == Some(Render(et, DATE).value + [' '] + Render(et, CLOCK).value)
  {
    hide Render, Piece, Simple, Names;
    NeverEmpty(et);
    FtPrints(et);
    RenderLiteral(et, ' ', CLOCK);
    SimpleThree('Y', 'm', 'd', '-');
    RenderAppend(et, DATE, [' '] + CLOCK);
    assert FT_PARSED == DATE + ([' '] + CLOCK);
    var d, c := Render(et, DATE).value, Render(et, CLOCK).value;
    assert d + ([' '] + c) == d + [' '] + c;
  }

  // ---------------------------------------------------------------- the directives that are only printed

  /** A decimal number without padding: its value, only digits, and no leading zero. */
  lemma {:induction false} DecimalIs(n: nat)
    ensures Decimal(n) != [] && Value(Decimal(n)) == n
    ensures forall i :: 0 <= i < |Decimal(n)| ==> '0' <= Decimal(n)[i] <= '9'
    ensures n > 0 ==> Decimal(n)[0] != '0'
  {
    var s := Decimal(n);
    if n >= 10 {
      DecimalIs(n / 10);
      assert s[..|s| - 1] == Decimal(n / 10);
    } else {
      assert s[..0] == [] && Value([]) == 0;
    }
  }

  /** "%k" is the hour, "%s" the seconds from the epoch, both without padding. */
  lemma PlainNumbers(et: Fields)
    requires InRange(et)
    ensures Piece(et, 'k') == Some(if et.hour < 10 then [Digit(et.hour)] else Two(et.hour))
    ensures et.zone == Gmt ==>
              var p, t := Piece(et, 's'), GmToTime(Tm(et.year, et.mon, et.mday, et.hour, et.min, et.sec, 0, 0));
              p.Some? && p.value != [] && Value(p.value) == t && (t > 0 ==> p.value[0] != '0')
  {
    hide Digit, Two, Decimal, Value;
    HourIs(et.hour);
    if et.zone == Gmt {
      SecondsInRange(et);
      DecimalIs(SecondsOf(et));
      hide GmToTime;
    }
  }

  lemma HourIs(hour: int)
    requires 0 <= hour < 24
    ensures Decimal(hour) == if hour < 10 then [Digit(hour)] else Two(hour)
  {
    hide DigitOf, Digit;
    DigitIs(hour);
    if hour >= 10 {
      DigitIs(hour / 10);
      assert Decimal(hour / 10) == [DigitOf(hour / 10)];
      assert Decimal(hour) == [DigitOf(hour / 10)] + [DigitOf(hour)];
    }
  }

  /** "%z" is a sign, hours and minutes; mktime() failing is the only failure. */
  lemma ZoneText(et: Fields)
    ensures et.zone == Gmt ==> Piece(et, 'z') == Some("+0000")
    ensures et.zone.Local? ==> (Piece(et, 'z').None? <==> et.zone.seconds == -1)
    ensures et.zone.Local? && et.zone.seconds != -1 && -360000 < et.zone.offset < 360000 ==>
              var offset := et.zone.offset;
              var minutes := (if offset < 0 then -offset else offset) / 60;
              Piece(et, 'z') == Some([if offset < 0 then '-' else '+'] + Two(minutes / 60) + Two(minutes % 60))
  {
    hide Digits, Two;
    if et.zone.Local? && -360000 < et.zone.offset < 360000 {
      var offset := et.zone.offset;
      var minutes := (if offset < 0 then -offset else offset) / 60;
      var n := minutes / 60 * 100 + minutes % 60;
      HoursAndMinutes(minutes);
      FourIs(n);
      var sign := [if offset < 0 then '-' else '+'];
      assert sign + (Two(n / 100) + Two(n % 100)) == sign + Two(n / 100) + Two(n % 100);
    }
  }

  lemma HoursAndMinutes(minutes: int)
    requires 0 <= minutes < 6000
    ensures var n := minutes / 60 * 100 + minutes % 60;
            0 <= n < 10000 && n / 100 == minutes / 60 && n % 100 == minutes % 60
  {
  }

  // ---------------------------------------------------------------- what set_ft reads

  /** The number that stands at position `at` in `size` digits. */
  function NumberAt(v: string, at: nat, size: nat): Option<int>
  {
    if at + size <= |v| && forall i :: at <= i < at + size ==> '0' <= v[i] <= '9' then Some(Value(v[at..at + size]))
    else None
  }

  predicate CharAt(v: string, at: nat, c: char)
  {
    at < |v| && v[at] == c
  }

  /** The parse of v from position `at` on, or None where it fails. */
  function ParseAt(f: Fields, v: string, at: nat, format: string, strict: bool): Option<Fields>
    requires at <= |v|
  {
    var p := Parse(f, v[at..], format, strict);
    if p.ok then Some(p.fields) else None
  }

  /** The values a numeric directive accepts, and the field it sets. */
  predicate Accepts(c: char, x: int)
  {
    match c
    case 'Y' => x >= 1970
    case 'm' => 1 <= x <= 12
    case 'd' => 1 <= x <= 31
    case 'H' => x <= 23
    case _ => x <= 59
  }

  function With(f: Fields, c: char, x: int): Fields
  {
    match c
    case 'Y' => f.(year := x - 1900)
    case 'm' => f.(mon := x - 1)
    case 'd' => f.(mday := x)
    case 'H' => f.(hour := x)
    case 'M' => f.(min := x)
    case _ => f.(sec := x)
  }

  lemma FullNumber(v: string, at: nat, size: nat, was: int, strict: bool)
    requires at <= |v| && size > 0 && (strict || NumberAt(v, at, size).Some?)
    ensures var n, r := NumberAt(v, at, size), ReadNumber(v[at..], size, was, strict);
            && (r.ok <==> n.Some?)
            && (n.Some? ==> r == Number(true, n.value, size))
  {
    var src := v[at..];
    if src != [] && IsNumber(src[0]) && |src| >= size {
      assert src[..size] == v[at..at + size];
      var n := DigitRun(src[..size]);
      if n < size {
        assert !IsNumber(v[at + n]);
      } else {
        forall i | at <= i < at + size ensures '0' <= v[i] <= '9' {
          assert IsNumber(src[..size][i - at]);
        }
        assert src[..n] == v[at..at + size];
      }
    } else if at + size <= |v| {
      assert !IsNumber(v[at]);
    }
  }

  lemma StepNumber(f: Fields, v: string, at: nat, c: char, size: nat, rest: string, strict: bool)
    requires at <= |v| && c in "YmdHMS" && size == (if c == 'Y' then 4 else 2)
    requires strict || NumberAt(v, at, size).Some?
    ensures var n := NumberAt(v, at, size);
            ParseAt(f, v, at, ['%', c] + rest, strict) ==
              if n.Some? && Accepts(c, n.value) then ParseAt(With(f, c, n.value), v, at + size, rest, strict) else None
  {
    hide ReadNumber, NumberAt, Parse;
    ParseDirective(f, v[at..], c, rest, strict);
    var was := match c case 'Y' => f.year case 'm' => f.mon case 'd' => f.mday
                       case 'H' => f.hour case 'M' => f.min case _ => f.sec;
    FullNumber(v, at, size, was, strict);
    var n := NumberAt(v, at, size);
    if n.Some? {
      NumberFits(v, at, size);
      assert v[at..][size..] == v[at + size..];
    }
  }

  lemma NumberFits(v: string, at: nat, size: nat)
    ensures NumberAt(v, at, size).Some? ==> at + size <= |v|
  {
  }

  lemma StepChar(f: Fields, v: string, at: nat, c: char, rest: string, strict: bool)
    requires at <= |v| && c != '%'
    requires strict || !IsSpace(c) || (CharAt(v, at, c) && at + 1 < |v| && !IsSpace(v[at + 1]))
    ensures ParseAt(f, v, at, [c] + rest, strict) ==
              if CharAt(v, at, c) then ParseAt(f, v, at + 1, rest, strict) else None
  {
    assert ([c] + rest)[1..] == rest;
    if at < |v| {
      assert v[at..][1..] == v[at + 1..];
      if !strict && IsSpace(c) {
        assert SkipSpaces(v[at..]) == SkipSpaces(v[at + 1..]) == v[at + 1..];
      }
    }
  }

  /** Three numbers with a separator between them, read from position `at` on. */
  ghost predicate ThreeAt(v: string, at: nat, a: char, size: nat, b: char, c: char, sep: char)
  {
    && NumberAt(v, at, size).Some? && Accepts(a, NumberAt(v, at, size).value) && CharAt(v, at + size, sep)
    && NumberAt(v, at + size + 1, 2).Some? && Accepts(b, NumberAt(v, at + size + 1, 2).value)
    && CharAt(v, at + size + 3, sep)
    && NumberAt(v, at + size + 4, 2).Some? && Accepts(c, NumberAt(v, at + size + 4, 2).value)
  }

  function Three(f: Fields, v: string, at: nat, a: char, size: nat, b: char, c: char): Fields
    requires NumberAt(v, at, size).Some? && NumberAt(v, at + size + 1, 2).Some?
    requires NumberAt(v, at + size + 4, 2).Some?
  {
    With(With(With(f, a, NumberAt(v, at, size).value), b, NumberAt(v, at + size + 1, 2).value),
         c, NumberAt(v, at + size + 4, 2).value)
  }

  lemma StepThree(f: Fields, v: string, at: nat, a: char, size: nat, b: char, c: char, sep: char, rest: string,
                  strict: bool)
    requires at <= |v| && a in "YmdHMS" && size == (if a == 'Y' then 4 else 2)
    requires b in "mdHMS" && c in "mdHMS" && sep != '%' && !IsSpace(sep)
    requires strict || ThreeAt(v, at, a, size, b, c, sep)
    ensures ThreeAt(v, at, a, size, b, c, sep) ==> at + size + 6 <= |v|
    ensures ParseAt(f, v, at, ['%', a, sep, '%', b, sep, '%', c] + rest, strict) ==
              if ThreeAt(v, at, a, size, b, c, sep) then
                ParseAt(Three(f, v, at, a, size, b, c), v, at + size + 6, rest, strict)
              else None
  {
    hide ParseAt, NumberAt, Accepts, With;
    var r5 := ['%', c] + rest;
    var r4 := [sep] + r5;
    var r3 := ['%', b] + r4;
    var r2 := [sep] + r3;
    assert ['%', a, sep, '%', b, sep, '%', c] + rest == ['%', a] + r2;
    StepNumber(f, v, at, a, size, r2, strict);
    NumberFits(v, at, size);
    var x := NumberAt(v, at, size);
    if x.None? || !Accepts(a, x.value) { return; }
    var f1 := With(f, a, x.value);
    StepChar(f1, v, at + size, sep, r3, strict);
    if !CharAt(v, at + size, sep) { return; }
    StepNumber(f1, v, at + size + 1, b, 2, r4, strict);
    NumberFits(v, at + size + 1, 2);
    var y := NumberAt(v, at + size + 1, 2);
    if y.None? || !Accepts(b, y.value) { return; }
    var f2 := With(f1, b, y.value);
    StepChar(f2, v, at + size + 3, sep, r5, strict);
    if !CharAt(v, at + size + 3, sep) { return; }
    StepNumber(f2, v, at + size + 4, c, 2, rest, strict);
    NumberFits(v, at + size + 4, 2);
  }

  /** The text starts with a date and a clock time in "YYYY-MM-DD hh:mm:ss", every part in its range. */
  ghost predicate IsFtText(v: string)
  {
    && NumberAt(v, 0, 4).Some? && NumberAt(v, 0, 4).value >= 1970 && CharAt(v, 4, '-')
    && NumberAt(v, 5, 2).Some? && 1 <= NumberAt(v, 5, 2).value <= 12 && CharAt(v, 7, '-')
    && NumberAt(v, 8, 2).Some? && 1 <= NumberAt(v, 8, 2).value <= 31 && CharAt(v, 10, ' ')
    && NumberAt(v, 11, 2).Some? && NumberAt(v, 11, 2).value <= 23 && CharAt(v, 13, ':')
    && NumberAt(v, 14, 2).Some? && NumberAt(v, 14, 2).value <= 59 && CharAt(v, 16, ':')
    && NumberAt(v, 17, 2).Some? && NumberAt(v, 17, 2).value <= 59
  }

  /** What such a text says. */
  ghost function FtTm(v: string): Tm
    requires IsFtText(v)
  {
    Tm(NumberAt(v, 0, 4).value - 1900, NumberAt(v, 5, 2).value - 1, NumberAt(v, 8, 2).value,
       NumberAt(v, 11, 2).value, NumberAt(v, 14, 2).value, NumberAt(v, 17, 2).value, 0, 0)
  }

  /**
    set_ft of any text, strict: the seconds of the numbers it starts with, or a failure. Not
    strict, it reads the same from every such text.
   */
  lemma SetFtExactly(v: string, strict: bool)
    ensures IsFtText(v) ==> SetFt(v, strict) == Some((GmToTime(FtTm(v)), 0))
    ensures strict && !IsFtText(v) ==> SetFt(v, strict) == None
  {
    hide Parse, FieldsOf, NumberAt, GmToTime, InRange, ParseAt, IsSpace;
    if strict || IsFtText(v) {
      Epoch();
      DigitAt11(v);
      SetFtIs(v, strict);
      var f := FieldsOf(0, 0);
      assert FT_PARSED == ['%', 'Y', '-', '%', 'm', '-', '%', 'd'] + ([' '] + CLOCK);
      StepThree(f, v, 0, 'Y', 4, 'm', 'd', '-', [' '] + CLOCK, strict);
      if !ThreeAt(v, 0, 'Y', 4, 'm', 'd', '-') { return; }
      var g := Three(f, v, 0, 'Y', 4, 'm', 'd');
      StepChar(g, v, 10, ' ', CLOCK, strict);
      if !CharAt(v, 10, ' ') { return; }
      assert CLOCK == ['%', 'H', ':', '%', 'M', ':', '%', 'S'] + [];
      StepThree(g, v, 11, 'H', 2, 'M', 'S', ':', [], strict);
      if ThreeAt(v, 11, 'H', 2, 'M', 'S', ':') {
        ParseNothing(Three(g, v, 11, 'H', 2, 'M', 'S'), v, 19, strict);
      }
    }
  }

  lemma SetFtIs(v: string, strict: bool)
    ensures var p := ParseAt(FieldsOf(0, 0), v, 0, FT_PARSED, strict);
            if p.Some? then 0 <= p.value.mon < 12 && SetFt(v, strict) == Some((SecondsOf(p.value), p.value.usec))
            else SetFt(v, strict) == None
  {
    hide Parse, SecondsOf, FieldsOf;
    assert v[0..] == v;
  }

  lemma DigitAt11(v: string)
    ensures !IsSpace('-') && !IsSpace(':')
    ensures NumberAt(v, 11, 2).Some? ==> 11 < |v| && !IsSpace(v[11])
  {
  }

  lemma ParseNothing(f: Fields, v: string, at: nat, strict: bool)
    requires at <= |v|
    ensures ParseAt(f, v, at, [], strict) == Some(f)
  {
  }

  /** The epoch and a leap day, as gm_ft prints and set_ft reads them. */
  lemma KnownTexts(strict: bool)
    ensures GmFt(0, 0) == "1970-01-01 00:00:00" && SetFt("1970-01-01 00:00:00", strict) == Some((0, 0))
    ensures GmFt(951827696, 0) == "2000-02-29 12:34:56"
    ensures SetFt("2000-02-29 12:34:56", strict) == Some((951827696, 0))
  {
    hide SetFt, GmFt, GmToTime, TimeToGm, Render;
    KnownTimes();
    GmFtText(0, Tm(70, 0, 1, 0, 0, 0, 4, 0));
    GmFtText(951827696, Tm(100, 1, 29, 12, 34, 56, 2, 59));
    FtRoundTrip(0, 0, strict);
    FtRoundTrip(951827696, 0, strict);
    SpelledOut();
  }

  lemma GmFtText(sec: int, tm: Tm)
    requires TimeToGm(sec) == tm && 70 <= tm.year <= 8099 && 0 <= tm.mon < 12 && 1 <= tm.mday <= 31
    requires 0 <= tm.hour < 24 && 0 <= tm.min < 60 && 0 <= tm.sec < 60 && 0 <= tm.wday < 7
    ensures GmFt(sec, 0) == Four(tm.year + 1900) + ['-'] + Two(tm.mon + 1) + ['-'] + Two(tm.mday) + [' ']
                            + Two(tm.hour) + [':'] + Two(tm.min) + [':'] + Two(tm.sec)
  {
    hide TimeToGm, Render, Two, Four;
    FtText(FieldsOf(sec, 0));
  }

  lemma SpelledOut()
    ensures Four(1970) + ['-'] + Two(1) + ['-'] + Two(1) + [' '] + Two(0) + [':'] + Two(0) + [':'] + Two(0)
            == "1970-01-01 00:00:00"
    ensures Four(2000) + ['-'] + Two(2) + ['-'] + Two(29) + [' '] + Two(12) + [':'] + Two(34) + [':'] + Two(56)
            == "2000-02-29 12:34:56"
  {
    hide Two, Four;
    SomeNumbers();
  }

  lemma SomeNumbers()
    ensures Four(1970) == "1970" && Two(1) == "01" && Two(0) == "00" && Four(2000) == "2000"
    ensures Two(2) == "02" && Two(29) == "29" && Two(12) == "12" && Two(34) == "34" && Two(56) == "56"
  {
  }

  /** A directive that is not known, or a sign without one, is neither printed nor read, whatever follows. */
  lemma UnknownDirectives(et: Fields, f: Fields, v: string, c: char, rest: string, strict: bool)
    ensures c !in "%aAbBdeFhHkmMqsSTYz" ==> Render(et, ['%', c] + rest) == None
    ensures c !in "%aAbBdehHmMqSY" ==> !Parse(f, v, ['%', c] + rest, strict).ok
    ensures Render(et, "%") == None && !Parse(f, v, "%", strict).ok
  {
    if c !in "%aAbBdeFhHkmMqsSTYz" {
      assert Piece(et, c) == None;
    }
    if c !in "%aAbBdehHmMqSY" {
      hide Parse, ReadNumber;
      ParseDirective(f, v, c, rest, strict);
    }
  }
}
