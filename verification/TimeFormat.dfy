/**
  Printing and parsing of broken-down times: to_str_ and from_str_ of src/Generics/Time.cpp,
  with the "%F %T" shortcuts of src/Generics/Time.hpp.

  `Render` and `Parse` say what the two functions compute; the methods below them are the
  loops over buffers that the source has.
 */
module TimeFormat {
  import opened Calendar
  import opened Wrappers

  /** The time zone; for the local one, what mktime() answers for the fields: -1 for a failure, and tm_gmtoff. */
  datatype Zone = Gmt | Local(seconds: int, offset: int)

  /** The fields of ExtendedTime that formats name. */
  datatype Fields = Fields(
    year: int, mon: int, mday: int, hour: int, min: int, sec: int, usec: int, wday: int, zone: Zone)

  function ShortDays(): (r: seq<string>)
    ensures |r| == 7
  {
    ["Sun", "Mon", "Tue", "Wed", "Thu", "Fri", "Sat"]
  }

  function FullDays(): (r: seq<string>)
    ensures |r| == 7
  {
    ["Sunday", "Monday", "Tuesday", "Wednesday", "Thursday", "Friday", "Saturday"]
  }

  function ShortMonths(): (r: seq<string>)
    ensures |r| == 12
  {
    ["Jan", "Feb", "Mar", "Apr", "May", "Jun", "Jul", "Aug", "Sep", "Oct", "Nov", "Dec"]
  }

  function FullMonths(): (r: seq<string>)
    ensures |r| == 12
  {
    ["January", "February", "March", "April", "May", "June",
     "July", "August", "September", "October", "November", "December"]
  }

  const USEC_MAX := 1000000

  predicate IsNumber(c: char)
  {
    '0' <= c <= '9'
  }

  /** isspace */
  predicate IsSpace(c: char)
  {
    c == ' ' || '\t' <= c <= '\r'
  }

  function Pow10(n: nat): (p: nat)
    ensures p > 0
  {
    if n == 0 then 1 else 10 * Pow10(n - 1)
  }

  // ---------------------------------------------------------------- numbers

  /** number % 10 + '0' */
  function DigitOf(number: int): (c: char)
    ensures number >= 0 ==> IsNumber(c) && c as int - '0' as int == number % 10
  {
    ('0' as int + Mod(number, 10)) as char
  }

  /** add_num<SIZE>: the low `size` decimal digits. */
  function Digits(number: int, size: nat): (s: string)
    ensures |s| == size
    decreases size
  {
    if size == 0 then [] else Digits(Div(number, 10), size - 1) + [DigitOf(number)]
  }

  /** The value of a run of digits. */
  function Value(s: string): int
  {
    if s == [] then 0 else Value(s[..|s| - 1]) * 10 + (s[|s| - 1] as int - '0' as int)
  }

  method AddNum(number: int, size: nat) returns (buf: array<char>)
    ensures fresh(buf) && buf[..] == Digits(number, size)
  {
    buf := new char[size](_ => '0');
    var i, rest := size, number;
    assert buf[i..] == [];
    while i > 0
      invariant 0 <= i <= size
      invariant Digits(number, size) == Digits(rest, i) + buf[i..]
    {
      i := i - 1;
      ghost var old_ := buf[i + 1..];
      buf[i] := DigitOf(rest);
      assert buf[i..] == [DigitOf(rest)] + old_;
      rest := Div(rest, 10);
    }
    assert buf[..] == buf[0..];
  }

  datatype Number = Number(ok: bool, number: int, used: nat)

  /** How many characters at the front are digits. */
  function DigitRun(s: string): (n: nat)
    ensures n <= |s|
    ensures forall i :: 0 <= i < n ==> IsNumber(s[i])
    ensures n < |s| ==> !IsNumber(s[n])
  {
    if s == [] || !IsNumber(s[0]) then 0 else 1 + DigitRun(s[1..])
  }

  /** read_number<SIZE>; `was` is the field before the call, which a refusal leaves alone. */
  function ReadNumber(src: string, size: nat, was: int, strict: bool): (r: Number)
    requires size > 0
    ensures r.used <= |src|
  {
    if src == [] || !IsNumber(src[0]) || (strict && |src| < size) then Number(false, was, 0)
    else
      var left := if |src| < size then |src| else size;
      var n := DigitRun(src[..left]);
      Number(!strict || n == left, Value(src[..n]), n)
  }

  method ReadNumberLoop(src: string, size: nat, was: int, strict: bool) returns (r: Number)
    requires size > 0
    ensures r == ReadNumber(src, size, was, strict)
  {
    if src == [] || !IsNumber(src[0]) || (strict && |src| < size) {
      return Number(false, was, 0);
    }
    var limit := if |src| < size then |src| else size;
    var number, i := 0, 0;
    var more := true;
    while more
      invariant 0 <= i <= limit && number == Value(src[..i])
      invariant forall j :: 0 <= j < i ==> IsNumber(src[j])
      invariant more <==> i < limit && IsNumber(src[i])
      decreases limit - i
    {
      assert src[..i + 1][..i] == src[..i];
      number := number * 10 + (src[i] as int - '0' as int);
      i := i + 1;
      more := i < limit && IsNumber(src[i]);
    }
    RunIs(src[..limit], i);
    return Number(!strict || i == limit, number, i);
  }

  /** What is read: the digits at the front, at most `size` of them; a strict reader insists on all. */
  lemma NumberRead(src: string, size: nat, was: int, strict: bool)
    requires size > 0
    ensures var r := ReadNumber(src, size, was, strict);
            && r.used <= size && (forall i :: 0 <= i < r.used ==> '0' <= src[i] <= '9')
            && (if r.used > 0 then r.number == Value(src[..r.used]) else !r.ok && r.number == was)
            && (0 < r.used < size && r.used < |src| ==> !('0' <= src[r.used] <= '9'))
            && (!strict ==> (r.ok <==> src != [] && '0' <= src[0] <= '9'))
            && (strict ==> (r.ok <==> size <= |src| && forall i :: 0 <= i < size ==> '0' <= src[i] <= '9'))
  {
    var left := if |src| < size then |src| else size;
    var n := DigitRun(src[..left]);
    hide Value;
    assert forall i :: 0 <= i < n ==> src[..left][i] == src[i];
    if n < left {
      assert src[..left][n] == src[n];
    }
  }

  lemma RunIs(s: string, n: nat)
    requires n <= |s| && (forall i :: 0 <= i < n ==> IsNumber(s[i])) && (n < |s| ==> !IsNumber(s[n]))
    ensures DigitRun(s) == n
  {
  }

  lemma {:induction false} DigitsAreNumbers(number: int, size: nat)
    requires number >= 0
    ensures forall i :: 0 <= i < size ==> IsNumber(Digits(number, size)[i])
  {
    if size > 0 {
      DigitsAreNumbers(number / 10, size - 1);
    }
  }

  /** Reading what was printed gives the number back, if it has at most `size` digits. */
  lemma {:induction false} ValueOfDigits(number: int, size: nat)
    requires 0 <= number < Pow10(size)
    ensures Value(Digits(number, size)) == number
  {
    if size > 0 {
      ValueOfDigits(number / 10, size - 1);
      var s := Digits(number, size);
      assert s[..|s| - 1] == Digits(number / 10, size - 1);
    }
  }

  lemma ReadsBack(number: int, size: nat, rest: string, was: int, strict: bool)
    requires 0 <= number < Pow10(size) && size > 0
    ensures ReadNumber(Digits(number, size) + rest, size, was, strict) == Number(true, number, size)
  {
    var d := Digits(number, size);
    DigitsAreNumbers(number, size);
    assert (d + rest)[0] == d[0];
    assert (d + rest)[..size] == d;
    RunIs(d, size);
    ValueOfDigits(number, size);
  }

  lemma {:induction false} ValueBound(s: string)
    requires forall i :: 0 <= i < |s| ==> IsNumber(s[i])
    ensures 0 <= Value(s) < Pow10(|s|)
  {
    if s != [] {
      ValueBound(s[..|s| - 1]);
    }
  }

  lemma {:induction false} Pow10Monotone(m: nat, n: nat)
    requires m <= n
    ensures Pow10(m) <= Pow10(n)
    decreases n - m
  {
    if m < n {
      Pow10Monotone(m, n - 1);
    }
  }

  lemma ReadBound(src: string, size: nat, was: int, strict: bool)
    requires size > 0
    ensures var r := ReadNumber(src, size, was, strict); r.ok ==> 0 <= r.number < Pow10(size)
  {
    var left := if |src| < size then |src| else size;
    var n := DigitRun(src[..left]);
    ValueBound(src[..n]);
    Pow10Monotone(n, size);
  }

  // ---------------------------------------------------------------- printing

  /** The conversion of ExtendedTime to Time. */
  function SecondsOf(f: Fields): int
    requires 0 <= f.mon < 12
  {
    match f.zone
    case Gmt => GmToTime(Tm(f.year, f.mon, f.mday, f.hour, f.min, f.sec, 0, 0))
    case Local(seconds, _) => seconds
  }

  /** Decimal digits without padding. */
  function Decimal(n: nat): string
  {
    if n < 10 then [DigitOf(n)] else Decimal(n / 10) + [DigitOf(n)]
  }

  function IntToStr(n: int): string
  {
    if n < 0 then "-" + Decimal(-n) else Decimal(n)
  }

  /** "%z": hours and minutes from Greenwich. */
  function ZoneName(zone: Zone): Option<string>
  {
    match zone
    case Gmt => Some("+0000")
    case Local(seconds, offset) =>
      if seconds == -1 then None
      else
        var minutes := (if offset < 0 then -offset else offset) / 60;
        Some([if offset < 0 then '-' else '+'] + Digits(minutes / 60 * 100 + minutes % 60, 4))
  }

  /** An entry of a table of names; an index outside it is not a time. */
  function NameAt(names: seq<string>, i: int): Option<string>
  {
    if 0 <= i < |names| then Some(names[i]) else None
  }

  /** "%e": a day padded with a space. */
  function SpacePadded(day: int): (s: string)
    ensures |s| == 2
  {
    [if Div(day, 10) != 0 then (('0' as int + Div(day, 10)) % 256) as char else ' ', DigitOf(day)]
  }

  /** What one directive prints, the two combined ones apart. */
  function Piece(et: Fields, c: char): Option<string>
  {
    match c
    case '%' => Some("%")
    case 'a' => NameAt(ShortDays(), et.wday)
    case 'A' => NameAt(FullDays(), et.wday)
    case 'b' => NameAt(ShortMonths(), et.mon)
    case 'h' => NameAt(ShortMonths(), et.mon)
    case 'B' => NameAt(FullMonths(), et.mon)
    case 'k' => Some(IntToStr(et.hour))
    case 's' => if 0 <= et.mon < 12 then Some(IntToStr(SecondsOf(et))) else None
    case 'z' => ZoneName(et.zone)
    case 'd' => Some(Digits(et.mday, 2))
    case 'e' => Some(SpacePadded(et.mday))
    case 'H' => Some(Digits(et.hour, 2))
    case 'm' => Some(Digits(et.mon + 1, 2))
    case 'M' => Some(Digits(et.min, 2))
    case 'q' => Some(Digits(et.usec, 6))
    case 'S' => Some(Digits(et.sec, 2))
    case 'Y' => Some(Digits(et.year + 1900, 4))
    case _ => None
  }

  method MakePiece(et: Fields, c: char) returns (piece: Option<string>)
    ensures piece == Piece(et, c)
  {
    hide Digits, SpacePadded, NameAt, IntToStr, SecondsOf, ZoneName;
    var number, size := 0, 2;
    match c {
      case '%' => return Some("%");
      case 'a' => return NameAt(ShortDays(), et.wday);
      case 'A' => return NameAt(FullDays(), et.wday);
      case 'b' => return NameAt(ShortMonths(), et.mon);
      case 'h' => return NameAt(ShortMonths(), et.mon);
      case 'B' => return NameAt(FullMonths(), et.mon);
      case 'k' => return Some(IntToStr(et.hour));
      case 's' => return if 0 <= et.mon < 12 then Some(IntToStr(SecondsOf(et))) else None;
      case 'z' => return ZoneName(et.zone);
      case 'd' => number := et.mday;
      case 'e' => return Some(SpacePadded(et.mday));
      case 'H' => number := et.hour;
      case 'm' => number := et.mon + 1;
      case 'M' => number := et.min;
      case 'q' => number, size := et.usec, 6;
      case 'S' => number := et.sec;
      case 'Y' => number, size := et.year + 1900, 4;
      case _ => return None;
    }
    var buf := AddNum(number, size);
    return Some(buf[..]);
  }

  function Prepend(s: string, rest: Option<string>): Option<string>
  {
    if rest.None? then None else Some(s + rest.value)
  }

  predicate Nested(format: string)
  {
    'F' in format || 'T' in format
  }

  const DATE := "%Y-%m-%d"
  const CLOCK := "%H:%M:%S"

  /** What to_str_ writes into a buffer that is long enough; None for an unknown directive. */
  function Render(et: Fields, format: string): Option<string>
    decreases Nested(format), |format|
  {
    if format == [] then Some([])
    else if format[0] != '%' then Prepend([format[0]], Render(et, format[1..]))
    else if |format| == 1 then None
    else
      var piece := if format[1] == 'F' then Render(et, DATE)
                   else if format[1] == 'T' then Render(et, CLOCK)
                   else Piece(et, format[1]);
      if piece.None? then None else Prepend(piece.value, Render(et, format[2..]))
  }

  /** add_str: copies `src` after the `size` characters written so far, if it fits. */
  method AddStr(str: array<char>, at: nat, size: nat, length: nat, src: string) returns (ok: bool)
    requires at + length <= str.Length && size <= length
    modifies str
    ensures ok <==> size + |src| <= length
    ensures str[..at + size] == old(str[..at + size])
    ensures ok ==> str[at + size..at + size + |src|] == src
  {
    if size + |src| > length {
      return false;
    }
    forall i | 0 <= i < |src| {
      str[at + size + i] := src[i];
    }
    return true;
  }

  ghost predicate Fits(s: Option<string>, length: nat)
  {
    s.Some? && |s.value| <= length
  }

  /** What the front of a format prints: a literal character or a directive. */
  function Front(et: Fields, format: string): Option<string>
    requires format != []
  {
    if format[0] != '%' then Some([format[0]])
    else if |format| == 1 then None
    else if format[1] == 'F' then Render(et, DATE)
    else if format[1] == 'T' then Render(et, CLOCK)
    else Piece(et, format[1])
  }

  /** How much of the format that is. */
  function FrontLength(format: string): (k: nat)
    requires format != []
    ensures 0 < k <= |format|
  {
    if format[0] != '%' || |format| == 1 then 1 else 2
  }

  lemma RenderFront(et: Fields, format: string)
    requires format != []
    ensures Render(et, format) ==
            if Front(et, format).None? then None
            else Prepend(Front(et, format).value, Render(et, format[FrontLength(format)..]))
  {
  }

  lemma PrependTwice(a: string, b: string, rest: Option<string>)
    ensures Prepend(a, Prepend(b, rest)) == Prepend(a + b, rest)
    ensures Prepend([], rest) == rest
  {
    if rest.Some? {
      assert a + (b + rest.value) == a + b + rest.value;
      assert [] + rest.value == rest.value;
    }
  }

  predicate Plain(et: Fields, c: char)
  {
    c != 'F' && c != 'T' && Piece(et, c).Some?
  }

  lemma RenderDirective(et: Fields, c: char, rest: string)
    requires Plain(et, c)
    ensures Render(et, ['%', c] + rest) == Prepend(Piece(et, c).value, Render(et, rest))
  {
    hide Piece;
    var f := ['%', c] + rest;
    assert f[0] == '%' && f[1] == c && f[2..] == rest;
  }

  lemma RenderLiteral(et: Fields, c: char, rest: string)
    requires c != '%'
    ensures Render(et, [c] + rest) == Prepend([c], Render(et, rest))
  {
    assert ([c] + rest)[1..] == rest;
  }

  /** Three directives with a separator between them. */
  lemma RenderThree(et: Fields, a: char, b: char, c: char, sep: char)
    requires Plain(et, a) && Plain(et, b) && Plain(et, c) && sep != '%'
    ensures Render(et, ['%', a, sep, '%', b, sep, '%', c]) ==
            Some(Piece(et, a).value + ([sep] + (Piece(et, b).value + ([sep] + (Piece(et, c).value + [])))))
  {
    hide Piece;
    assert Render(et, []) == Some([]);
    hide Render;
    var f1: string := ['%', c];
    assert ['%', c] + [] == f1;
    RenderDirective(et, c, []);
    var f2: string := [sep, '%', c];
    assert [sep] + f1 == f2;
    RenderLiteral(et, sep, f1);
    var f3: string := ['%', b, sep, '%', c];
    assert ['%', b] + f2 == f3;
    RenderDirective(et, b, f2);
    var f4: string := [sep, '%', b, sep, '%', c];
    assert [sep] + f3 == f4;
    RenderLiteral(et, sep, f3);
    assert ['%', a] + f4 == ['%', a, sep, '%', b, sep, '%', c];
    RenderDirective(et, a, f4);
  }

  lemma NeverEmpty(et: Fields)
    ensures Render(et, DATE).Some? && |Render(et, DATE).value| == 10
    ensures Render(et, CLOCK).Some? && |Render(et, CLOCK).value| == 8
  {
    hide Render, Digits;
    RenderThree(et, 'Y', 'm', 'd', '-');
    RenderThree(et, 'H', 'M', 'S', ':');
  }

  lemma CombinedFormats()
    ensures !Nested(DATE) && !Nested(CLOCK)
  {
  }

  /** One turn of the loop of to_str_, with `size` characters written so far. */
  method PrintFront(et: Fields, str: array<char>, at: nat, size: nat, length: nat, format: string)
    returns (ok: bool, added: nat)
    requires at + length <= str.Length && size <= length && format != []
    modifies str
    ensures str[..at + size] == old(str[..at + size])
    ensures ok <==> Fits(Front(et, format), length - size)
    ensures ok ==> added == |Front(et, format).value| && str[at + size..at + size + added] == Front(et, format).value
    decreases Nested(format), |format|, 0
  {
    hide Render, Piece;
    CombinedFormats();
    added := 0;
    if format[0] == '%' && |format| == 1 {
      return false, 0;
    }
    if format[0] == '%' && (format[1] == 'F' || format[1] == 'T') {
      NeverEmpty(et);
      added := ToStr(et, str, at + size, length - size, if format[1] == 'F' then DATE else CLOCK);
      return added != 0, added;
    }
    var piece := Some([format[0]]);
    if format[0] == '%' {
      piece := MakePiece(et, format[1]);
    }
    if piece.None? {
      return false, 0;
    }
    ok := AddStr(str, at, size, length, piece.value);
    added := |piece.value|;
  }

  /** to_str_ into str[at..at + length] */
  method ToStr(et: Fields, str: array<char>, at: nat, length: nat, format: string) returns (n: nat)
    requires at + length <= str.Length
    modifies str
    ensures str[..at] == old(str[..at])
    ensures Fits(Render(et, format), length) ==>
              n == |Render(et, format).value| && str[at..at + n] == Render(et, format).value
    ensures !Fits(Render(et, format), length) ==> n == 0
    decreases Nested(format), |format|, 1
  {
    hide Front, FrontLength, Render, Prepend, Nested;
    n := 0;
    var rest := format;
    ghost var written: string := [];
    PrependTwice([], [], Render(et, format));
    while rest != []
      invariant n <= length && |written| == n && |rest| <= |format| && (Nested(rest) ==> Nested(format))
      invariant str[..at] == old(str[..at]) && str[at..at + n] == written
      invariant Render(et, format) == Prepend(written, Render(et, rest))
      decreases |rest|
    {
      RenderFront(et, rest);
      NestedRest(rest);
      var ok, added := PrintFront(et, str, at, n, length, rest);
      if !ok {
        TooLong(written, Front(et, rest), Render(et, rest[FrontLength(rest)..]), length);
        return 0;
      }
      assert str[..at] == str[..at + n][..at] && str[at..at + n] == str[..at + n][at..];
      ghost var piece := Front(et, rest).value;
      rest := rest[FrontLength(rest)..];
      PrependTwice(written, piece, Render(et, rest));
      KeepsPrefix(str[..], at, n, added, written, piece);
      n := n + added;
      written := written + piece;
    }
    RenderEmpty(et, written);
  }

  lemma RenderEmpty(et: Fields, written: string)
    ensures Prepend(written, Render(et, [])) == Some(written)
  {
    assert written + [] == written;
  }

  lemma TooLong(written: string, front: Option<string>, rest: Option<string>, length: nat)
    requires |written| <= length && !Fits(front, length - |written|)
    ensures !Fits(Prepend(written, if front.None? then None else Prepend(front.value, rest)), length)
  {
  }

  lemma NestedRest(format: string)
    requires format != []
    ensures Nested(format[FrontLength(format)..]) ==> Nested(format)
  {
  }

  lemma KeepsPrefix(s: string, at: nat, n: nat, added: nat, a: string, b: string)
    requires at + n + added <= |s| && s[at..at + n] == a && s[at + n..at + n + added] == b
    ensures s[at..at + n + added] == a + b
  {
  }

  // ---------------------------------------------------------------- parsing

  datatype FieldRead = FieldRead(fields: Fields, ok: bool, used: nat)

  predicate Numeric(c: char)
  {
    c in "deHmMqSY"
  }

  function LowerCase(c: char): char
  {
    if 'A' <= c <= 'Z' then (c as int + 32) as char else c
  }

  /** Caseless::start */
  predicate CaselessStart(v: string, name: string)
  {
    |name| <= |v| && forall i :: 0 <= i < |name| ==> LowerCase(v[i]) == LowerCase(name[i])
  }

  datatype NameRead = NameRead(index: nat, used: nat)

  /** The first name from i on that v starts with, the full form before the short one. */
  function FindName(full: seq<string>, short: seq<string>, v: string, i: nat): (r: Option<NameRead>)
    requires i <= |full| == |short|
    ensures r.Some? ==> i <= r.value.index < |full| && r.value.used <= |v|
    decreases |full| - i
  {
    if i == |full| then None
    else if CaselessStart(v, full[i]) then Some(NameRead(i, |full[i]|))
    else if CaselessStart(v, short[i]) then Some(NameRead(i, |short[i]|))
    else FindName(full, short, v, i + 1)
  }

  method ScanName(full: seq<string>, short: seq<string>, v: string) returns (r: Option<NameRead>)
    requires |full| == |short|
    ensures r == FindName(full, short, v, 0)
  {
    hide CaselessStart;
    var i := 0;
    while i < |full|
      invariant i <= |full| && FindName(full, short, v, i) == FindName(full, short, v, 0)
    {
      if CaselessStart(v, full[i]) {
        return Some(NameRead(i, |full[i]|));
      }
      if CaselessStart(v, short[i]) {
        return Some(NameRead(i, |short[i]|));
      }
      i := i + 1;
    }
    return None;
  }

  /** A weekday is read and forgotten; a month sets its field. */
  function ReadDay(f: Fields, v: string): (r: FieldRead)
    ensures r.used <= |v| && r.fields == f
  {
    var n := FindName(FullDays(), ShortDays(), v, 0);
    if n.None? then FieldRead(f, false, 0) else FieldRead(f, true, n.value.used)
  }

  function ReadMonth(f: Fields, v: string): (r: FieldRead)
    ensures r.used <= |v|
    ensures r.ok ==> 0 <= r.fields.mon < 12 && r.fields == f.(mon := r.fields.mon)
  {
    var n := FindName(FullMonths(), ShortMonths(), v, 0);
    if n.None? then FieldRead(f, false, 0) else FieldRead(f.(mon := n.value.index), true, n.value.used)
  }

  /** One directive of from_str_; fields change even when the value is then refused. */
  function ReadField(f: Fields, c: char, v: string, strict: bool): (r: FieldRead)
    ensures r.used <= |v|
    ensures r.ok && 0 <= f.mon < 12 ==> 0 <= r.fields.mon < 12
  {
    match c
    case 'a' => ReadDay(f, v)
    case 'A' => ReadDay(f, v)
    case 'b' => ReadMonth(f, v)
    case 'B' => ReadMonth(f, v)
    case 'h' => ReadMonth(f, v)
    case 'd' =>
      var n := ReadNumber(v, 2, f.mday, strict);
      FieldRead(f.(mday := n.number), n.ok && 1 <= n.number <= 31, n.used)
    case 'e' =>
      var n := ReadNumber(v, 2, f.mday, strict);
      FieldRead(f.(mday := n.number), n.ok && 1 <= n.number <= 31, n.used)
    case 'H' =>
      var n := ReadNumber(v, 2, f.hour, strict);
      FieldRead(f.(hour := n.number), n.ok && n.number <= 23, n.used)
    case 'm' =>
      var n := ReadNumber(v, 2, f.mon, strict);
      var ok := n.ok && 1 <= n.number <= 12;
      FieldRead(f.(mon := if ok then n.number - 1 else n.number), ok, n.used)
    case 'M' => var n := ReadNumber(v, 2, f.min, strict); FieldRead(f.(min := n.number), n.ok && n.number <= 59, n.used)
    case 'q' =>
      var n := ReadNumber(v, 6, f.usec, strict);
      FieldRead(f.(usec := n.number), n.ok && n.number < USEC_MAX, n.used)
    case 'S' => var n := ReadNumber(v, 2, f.sec, strict); FieldRead(f.(sec := n.number), n.ok && n.number <= 59, n.used)
    case 'Y' =>
      var n := ReadNumber(v, 4, f.year, strict);
      var ok := n.ok && 1970 <= n.number;
      FieldRead(f.(year := if ok then n.number - 1900 else n.number), ok, n.used)
    case _ => FieldRead(f, false, 0)
  }

  /** The same through the reading loop. */
  method ScanField(f: Fields, c: char, v: string, strict: bool) returns (r: FieldRead)
    ensures r == ReadField(f, c, v, strict)
    ensures InRange(f) && r.ok ==> InRange(r.fields)
  {
    if InRange(f) {
      FieldKeepsRange(f, c, v, strict);
    }
    hide ReadNumber, FindName, InRange;
    if c == 'a' || c == 'A' {
      var n := ScanName(FullDays(), ShortDays(), v);
      return if n.None? then FieldRead(f, false, 0) else FieldRead(f, true, n.value.used);
    }
    if c == 'b' || c == 'B' || c == 'h' {
      var n := ScanName(FullMonths(), ShortMonths(), v);
      return if n.None? then FieldRead(f, false, 0) else FieldRead(f.(mon := n.value.index), true, n.value.used);
    }
    if !Numeric(c) {
      return FieldRead(f, false, 0);
    }
    var was := match c
      case 'H' => f.hour
      case 'm' => f.mon
      case 'M' => f.min
      case 'q' => f.usec
      case 'S' => f.sec
      case 'Y' => f.year
      case _ => f.mday;
    var n := ReadNumberLoop(v, if c == 'q' then 6 else if c == 'Y' then 4 else 2, was, strict);
    var x := n.number;
    match c {
      case 'H' => return FieldRead(f.(hour := x), n.ok && x <= 23, n.used);
      case 'm' =>
        var ok := n.ok && 1 <= x <= 12;
        return FieldRead(f.(mon := if ok then x - 1 else x), ok, n.used);
      case 'M' => return FieldRead(f.(min := x), n.ok && x <= 59, n.used);
      case 'q' => return FieldRead(f.(usec := x), n.ok && x < USEC_MAX, n.used);
      case 'S' => return FieldRead(f.(sec := x), n.ok && x <= 59, n.used);
      case 'Y' =>
        var ok := n.ok && 1970 <= x;
        return FieldRead(f.(year := if ok then x - 1900 else x), ok, n.used);
      case _ => return FieldRead(f.(mday := x), n.ok && 1 <= x <= 31, n.used);
    }
  }

  function SkipSpaces(v: string): (r: string)
    ensures |r| <= |v|
  {
    if v != [] && IsSpace(v[0]) then SkipSpaces(v[1..]) else v
  }

  datatype Parsed = Parsed(fields: Fields, ok: bool)

  /** from_str_, starting with the fields f. */
  function Parse(f: Fields, v: string, format: string, strict: bool): (r: Parsed)
    ensures r.ok && 0 <= f.mon < 12 ==> 0 <= r.fields.mon < 12
    decreases |format|
  {
    if format == [] then Parsed(f, true)
    else if format[0] == '%' then
      if |format| == 1 then Parsed(f, false)
      else if format[1] == '%' then
        if v == [] || v[0] != '%' then Parsed(f, false) else Parse(f, v[1..], format[2..], strict)
      else
        var r := ReadField(f, format[1], v, strict);
        if r.ok then Parse(r.fields, v[r.used..], format[2..], strict) else Parsed(r.fields, false)
    else if !strict && IsSpace(format[0]) then Parse(f, SkipSpaces(v), format[1..], strict)
    else if v == [] || v[0] != format[0] then Parsed(f, false)
    else Parse(f, v[1..], format[1..], strict)
  }

  class ExtendedTime {
    var fields: Fields

    constructor (fields: Fields)
      ensures this.fields == fields
    {
      this.fields := fields;
    }

    /** from_str_ */
    method FromStr(value: string, format: string, strict: bool) returns (ok: bool)
      modifies this
      ensures Parsed(fields, ok) == Parse(old(fields), value, format, strict)
    {
      hide ReadField;
      var v, i := value, 0;
      assert format[0..] == format;
      while i < |format|
        invariant i <= |format|
        invariant Parse(fields, v, format[i..], strict) == Parse(old(fields), value, format, strict)
      {
        if format[i] == '%' {
          if i + 1 == |format| {
            return false;
          }
          assert format[i..][2..] == format[i + 2..];
          if format[i + 1] == '%' {
            if v == [] || v[0] != '%' {
              return false;
            }
            v := v[1..];
          } else {
            var r := ScanField(fields, format[i + 1], v, strict);
            fields := r.fields;
            if !r.ok {
              return false;
            }
            v := v[r.used..];
          }
          i := i + 2;
        } else {
          assert format[i..][1..] == format[i + 1..];
          if !strict && IsSpace(format[i]) {
            ghost var was := v;
            while v != [] && IsSpace(v[0])
              invariant SkipSpaces(v) == SkipSpaces(was)
            {
              v := v[1..];
            }
          } else {
            if v == [] || v[0] != format[i] {
              return false;
            }
            v := v[1..];
          }
          i := i + 1;
        }
      }
      return true;
    }
  }

  // ---------------------------------------------------------------- print, then parse

  /** A format of literal characters and the directives that both sides know. */
  predicate Simple(format: string)
  {
    if format == [] then true
    else if format[0] != '%' then Simple(format[1..])
    else |format| > 1 && format[1] in "%ABdHmMqSY" && Simple(format[2..])
  }

  /** A format of literal characters and all directives that both sides know. */
  predicate Common(format: string)
  {
    if format == [] then true
    else if format[0] != '%' then Common(format[1..])
    else |format| > 1 && format[1] in "%aAbBdehHmMqSY" && Common(format[2..])
  }

  /** The format contains directive c. */
  predicate Names(format: string, c: char)
  {
    if format == [] then false
    else if format[0] != '%' then Names(format[1..], c)
    else |format| > 1 && (format[1] == c || Names(format[2..], c))
  }

  predicate InRange(et: Fields)
  {
    && 70 <= et.year <= 8099 && 0 <= et.mon < 12 && 1 <= et.mday <= 31
    && 0 <= et.hour < 24 && 0 <= et.min < 60 && 0 <= et.sec < 60 && 0 <= et.usec < USEC_MAX && 0 <= et.wday < 7
  }

  /** f with the fields that the format names taken from et. */
  function Restored(f: Fields, et: Fields, format: string): Fields
  {
    Fields(
      if Names(format, 'Y') then et.year else f.year,
      if Names(format, 'm') || Names(format, 'b') || Names(format, 'B') || Names(format, 'h') then et.mon else f.mon,
      if Names(format, 'd') || Names(format, 'e') then et.mday else f.mday,
      if Names(format, 'H') then et.hour else f.hour,
      if Names(format, 'M') then et.min else f.min,
      if Names(format, 'S') then et.sec else f.sec,
      if Names(format, 'q') then et.usec else f.usec,
      f.wday, f.zone)
  }

  /** f with the one field of directive c taken from et. */
  function Set1(f: Fields, et: Fields, c: char): Fields
  {
    match c
    case 'd' => f.(mday := et.mday)
    case 'H' => f.(hour := et.hour)
    case 'm' => f.(mon := et.mon)
    case 'b' => f.(mon := et.mon)
    case 'B' => f.(mon := et.mon)
    case 'h' => f.(mon := et.mon)
    case 'e' => f.(mday := et.mday)
    case 'M' => f.(min := et.min)
    case 'q' => f.(usec := et.usec)
    case 'S' => f.(sec := et.sec)
    case 'Y' => f.(year := et.year)
    case _ => f
  }

  lemma Powers()
    ensures Pow10(2) == 100 && Pow10(4) == 10000 && Pow10(6) == 1000000
  {
    assert Pow10(1) == 10 && Pow10(3) == 1000 && Pow10(5) == 100000;
  }

  // ---------------------------------------------------------------- names

  /** A caseless code of the first three letters. */
  function Code(s: string): int
    requires |s| >= 3
  {
    (LowerCase(s[0]) as int * 256 + LowerCase(s[1]) as int) * 256 + LowerCase(s[2]) as int
  }

  /** Names that are told apart by their short forms, which start the full ones. */
  ghost predicate ToldApart(full: seq<string>, short: seq<string>)
  {
    && |full| == |short|
    && (forall i :: 0 <= i < |short| ==> |short[i]| == 3 && |full[i]| >= 3 && Code(full[i]) == Code(short[i]))
    && (forall i, j :: 0 <= i < j < |short| ==> Code(short[i]) != Code(short[j]))
  }

  function DayCodes(): (r: seq<int>)
    ensures |r| == 7
  {
    [7566702, 7171950, 7632229, 7824740, 7628917, 6713961, 7561588]
  }

  function MonthCodes(): (r: seq<int>)
    ensures |r| == 12
  {
    [6971758, 6710626, 7168370, 6385778, 7168377, 6976878,
     6976876, 6387047, 7562608, 7299956, 7237494, 6579555]
  }

  lemma DayCode(i: nat)
    requires i < 7
    ensures |ShortDays()[i]| == 3 && |FullDays()[i]| >= 3
    ensures Code(FullDays()[i]) == Code(ShortDays()[i]) == DayCodes()[i]
    ensures LikeAName(ShortDays()[i]) && LikeAName(FullDays()[i])
  {
    if i == 0 {
    } else if i == 1 {
    } else if i == 2 {
    } else if i == 3 {
    } else if i == 4 {
    } else if i == 5 {
    } else {
    }
  }

  lemma MonthCode(i: nat)
    requires i < 12
    ensures |ShortMonths()[i]| == 3 && |FullMonths()[i]| >= 3
    ensures Code(FullMonths()[i]) == Code(ShortMonths()[i]) == MonthCodes()[i]
    ensures LikeAName(ShortMonths()[i]) && LikeAName(FullMonths()[i])
  {
    if i == 0 {
    } else if i == 1 {
    } else if i == 2 {
    } else if i == 3 {
    } else if i == 4 {
    } else if i == 5 {
    } else if i == 6 {
    } else if i == 7 {
    } else if i == 8 {
    } else if i == 9 {
    } else if i == 10 {
    } else {
    }
  }

  lemma DaysToldApart()
    ensures ToldApart(FullDays(), ShortDays())
  {
    hide Code;
    forall i | 0 <= i < 7
      ensures |ShortDays()[i]| == 3 && |FullDays()[i]| >= 3
      ensures Code(FullDays()[i]) == Code(ShortDays()[i]) == DayCodes()[i]
    {
      DayCode(i);
    }
  }

  lemma MonthsToldApart()
    ensures ToldApart(FullMonths(), ShortMonths())
  {
    hide Code;
    forall i | 0 <= i < 12
      ensures |ShortMonths()[i]| == 3 && |FullMonths()[i]| >= 3
      ensures Code(FullMonths()[i]) == Code(ShortMonths()[i]) == MonthCodes()[i]
    {
      MonthCode(i);
    }
  }

  lemma SameCode(v: string, name: string)
    requires CaselessStart(v, name) && |name| >= 3
    ensures Code(v) == Code(name)
  {
  }

  lemma {:induction false} OthersSkipped(full: seq<string>, short: seq<string>, v: string, i: nat, m: nat)
    requires ToldApart(full, short) && i <= m < |full| && |v| >= 3 && Code(v) == Code(short[m])
    ensures FindName(full, short, v, i) == FindName(full, short, v, m)
    decreases m - i
  {
    hide Code, FindName;
    if i < m {
      OtherSkipped(full, short, v, i, m);
      OthersSkipped(full, short, v, i + 1, m);
    }
  }

  lemma OtherSkipped(full: seq<string>, short: seq<string>, v: string, i: nat, m: nat)
    requires ToldApart(full, short) && i < m < |full| && |v| >= 3 && Code(v) == Code(short[m])
    ensures FindName(full, short, v, i) == FindName(full, short, v, i + 1)
  {
    hide Code, CaselessStart;
    if CaselessStart(v, full[i]) {
      SameCode(v, full[i]);
    } else if CaselessStart(v, short[i]) {
      SameCode(v, short[i]);
    }
  }

  /** A full name is read back whatever follows it. */
  lemma FullNameReadsBack(full: seq<string>, short: seq<string>, m: nat, rest: string)
    requires ToldApart(full, short) && m < |full|
    ensures FindName(full, short, full[m] + rest, 0) == Some(NameRead(m, |full[m]|))
  {
    var v := full[m] + rest;
    assert CaselessStart(v, full[m]);
    OthersSkipped(full, short, v, 0, m);
  }

  /** A short name gives its index back, but the parser stops at its end only if the text does not go on. */
  lemma ShortNameReadsBack(full: seq<string>, short: seq<string>, m: nat, rest: string)
    requires ToldApart(full, short) && m < |full|
    ensures var v := short[m] + rest;
            var r := FindName(full, short, v, 0);
            && r.Some? && r.value.index == m
            && (r.value.used == 3 <==> |full[m]| == 3 || !CaselessStart(v, full[m]))
  {
    var v := short[m] + rest;
    assert CaselessStart(v, short[m]);
    OthersSkipped(full, short, v, 0, m);
  }

  predicate IsLetter(c: char)
  {
    'a' <= LowerCase(c) <= 'z'
  }

  /** Three lower-case letters that begin a name. */
  predicate NameStart(a: char, b: char, c: char)
  {
    match a
    case 'j' => (b == 'a' && c == 'n') || (b == 'u' && (c == 'n' || c == 'l'))
    case 'f' => (b == 'e' && c == 'b') || (b == 'r' && c == 'i')
    case 'm' => (b == 'a' && (c == 'r' || c == 'y')) || (b == 'o' && c == 'n')
    case 'a' => (b == 'p' && c == 'r') || (b == 'u' && c == 'g')
    case 's' => (b == 'e' && c == 'p') || (b == 'u' && c == 'n') || (b == 'a' && c == 't')
    case 'o' => b == 'c' && c == 't'
    case 'n' => b == 'o' && c == 'v'
    case 'd' => b == 'e' && c == 'c'
    case 't' => (b == 'u' && c == 'e') || (b == 'h' && c == 'u')
    case 'w' => b == 'e' && c == 'd'
    case _ => false
  }

  /** The text begins as some name does, in any case. */
  predicate LikeAName(p: string)
  {
    |p| >= 3 && NameStart(LowerCase(p[0]), LowerCase(p[1]), LowerCase(p[2]))
  }

  // ---------------------------------------------------------------- one directive

  /** After its short form the text goes on as the full name does. */
  predicate GoesOn(short: string, full: string, tail: string)
  {
    |full| > 3 && CaselessStart(short + tail, full)
  }

  /** The directive is read back before this tail; `after` says that white space was just skipped. */
  predicate FrontRecovers(et: Fields, c: char, tail: string, after: bool)
    requires InRange(et)
  {
    match c
    case 'a' => !GoesOn(ShortDays()[et.wday], FullDays()[et.wday], tail)
    case 'b' => !GoesOn(ShortMonths()[et.mon], FullMonths()[et.mon], tail)
    case 'h' => !GoesOn(ShortMonths()[et.mon], FullMonths()[et.mon], tail)
    case 'e' => et.mday >= 10 || (after && (tail == [] || !IsNumber(tail[0])))
    case _ => true
  }

  lemma NameReadsBack(et: Fields, f: Fields, c: char, rest: string, strict: bool)
    requires InRange(et) && c in "aAbBh" && FrontRecovers(et, c, rest, false)
    ensures Piece(et, c).Some?
    ensures var p := Piece(et, c).value;
            ReadField(f, c, p + rest, strict) == FieldRead(Set1(f, et, c), true, |p|)
  {
    hide FindName, ToldApart, CaselessStart, Code, ShortDays, FullDays, ShortMonths, FullMonths;
    if c == 'a' || c == 'A' {
      DaysToldApart();
      DayCode(et.wday);
      if c == 'A' {
        FullNameReadsBack(FullDays(), ShortDays(), et.wday, rest);
      } else {
        ShortNameReadsBack(FullDays(), ShortDays(), et.wday, rest);
      }
    } else {
      MonthsToldApart();
      MonthCode(et.mon);
      if c == 'B' {
        FullNameReadsBack(FullMonths(), ShortMonths(), et.mon, rest);
      } else {
        ShortNameReadsBack(FullMonths(), ShortMonths(), et.mon, rest);
      }
    }
  }

  lemma NumberReadsBack(et: Fields, f: Fields, c: char, rest: string, strict: bool)
    requires InRange(et) && c in "dHmMqSY"
    ensures Piece(et, c).Some?
    ensures var p := Piece(et, c).value;
            ReadField(f, c, p + rest, strict) == FieldRead(Set1(f, et, c), true, |p|)
  {
    hide ReadNumber, Digits, Pow10, NameAt, ReadDay, ReadMonth, ZoneName, SecondsOf;
    Powers();
    match c {
      case 'd' => ReadsBack(et.mday, 2, rest, f.mday, strict);
      case 'H' => ReadsBack(et.hour, 2, rest, f.hour, strict);
      case 'm' => ReadsBack(et.mon + 1, 2, rest, f.mon, strict);
      case 'M' => ReadsBack(et.min, 2, rest, f.min, strict);
      case 'q' => ReadsBack(et.usec, 6, rest, f.usec, strict);
      case 'S' => ReadsBack(et.sec, 2, rest, f.sec, strict);
      case 'Y' => ReadsBack(et.year + 1900, 4, rest, f.year, strict);
    }
  }

  lemma TwoDigitDayReadsBack(et: Fields, f: Fields, rest: string, strict: bool)
    requires InRange(et) && et.mday >= 10
    ensures Piece(et, 'e') == Some(SpacePadded(et.mday))
    ensures ReadField(f, 'e', SpacePadded(et.mday) + rest, strict) == FieldRead(f.(mday := et.mday), true, 2)
  {
    hide ReadNumber, Digits, Pow10, SpacePadded, NameAt;
    Powers();
    TensDigit(et.mday);
    ReadsBack(et.mday, 2, rest, f.mday, strict);
  }

  lemma FieldReadsBack(et: Fields, f: Fields, c: char, rest: string, strict: bool)
    requires InRange(et) && c in "aAbBdehHmMqSY" && FrontRecovers(et, c, rest, false)
    ensures Piece(et, c).Some?
    ensures var p := Piece(et, c).value;
            ReadField(f, c, p + rest, strict) == FieldRead(Set1(f, et, c), true, |p|)
  {
    if c == 'e' {
      TwoDigitDayReadsBack(et, f, rest, strict);
      hide Piece, ReadField, GoesOn;
    } else {
      hide Piece, ReadField, FrontRecovers, InRange;
      if c in "aAbBh" {
        NameReadsBack(et, f, c, rest, strict);
      } else {
        NumberReadsBack(et, f, c, rest, strict);
      }
    }
  }

  lemma NumberStarts(et: Fields, c: char)
    requires InRange(et) && c in "%dHmMqSY"
    ensures Piece(et, c).Some? && Piece(et, c).value != []
    ensures Piece(et, c).value[0] == '%' || IsNumber(Piece(et, c).value[0])
  {
    hide Digits, NameAt;
    match c {
      case 'd' => DigitsAreNumbers(et.mday, 2);
      case 'H' => DigitsAreNumbers(et.hour, 2);
      case 'm' => DigitsAreNumbers(et.mon + 1, 2);
      case 'M' => DigitsAreNumbers(et.min, 2);
      case 'q' => DigitsAreNumbers(et.usec, 6);
      case 'S' => DigitsAreNumbers(et.sec, 2);
      case 'Y' => DigitsAreNumbers(et.year + 1900, 4);
      case _ =>
    }
  }

  lemma NameStarts(et: Fields, c: char)
    requires InRange(et) && c in "aAbBh"
    ensures Piece(et, c).Some? && LikeAName(Piece(et, c).value)
  {
    hide Code, LikeAName, ShortDays, FullDays, ShortMonths, FullMonths;
    if c == 'a' || c == 'A' {
      DayCode(et.wday);
    } else {
      MonthCode(et.mon);
    }
  }

  lemma LettersAreNoSpaces(p: string)
    requires LikeAName(p)
    ensures !IsSpace(p[0])
  {
  }

  lemma PaddedStarts(et: Fields)
    requires InRange(et)
    ensures Piece(et, 'e').Some? && Piece(et, 'e').value != []
    ensures var x := Piece(et, 'e').value[0]; !IsLetter(x) && (et.mday >= 10 ==> !IsSpace(x))
  {
    hide NameAt;
    assert Piece(et, 'e') == Some(SpacePadded(et.mday));
  }

  /** What a directive prints starts with a letter only for a name, with a space only for a padded day. */
  lemma PieceStarts(et: Fields, c: char)
    requires InRange(et) && c in "%aAbBdehHmMqSY"
    ensures Piece(et, c).Some? && Piece(et, c).value != []
    ensures c !in "aAbBh" ==> !IsLetter(Piece(et, c).value[0])
    ensures !(c == 'e' && et.mday < 10) ==> !IsSpace(Piece(et, c).value[0])
  {
    if c == 'e' {
      PaddedStarts(et);
      hide Piece;
    } else {
      hide Piece, InRange;
      if c in "aAbBh" {
        NameStarts(et, c);
        LettersAreNoSpaces(Piece(et, c).value);
      } else {
        NumberStarts(et, c);
      }
    }
  }

  /** A padded day whose padding was skipped is read back unless a digit follows. */
  lemma UnpaddedReadsBack(et: Fields, f: Fields, tail: string)
    requires InRange(et) && et.mday < 10 && (tail == [] || !IsNumber(tail[0]))
    ensures var v := SkipSpaces(SpacePadded(et.mday) + tail);
            && |v| == 1 + |tail| && v[1..] == tail
            && ReadField(f, 'e', v, false) == FieldRead(f.(mday := et.mday), true, 1)
  {
    var d := DigitOf(et.mday);
    assert SpacePadded(et.mday) + tail == [' '] + ([d] + tail);
    assert ([' '] + ([d] + tail))[1..] == [d] + tail;
    var v := [d] + tail;
    assert SkipSpaces(v) == v;
    var left := if |v| < 2 then |v| else 2;
    RunIs(v[..left], 1);
    assert v[..1] == [d] && [d][..0] == [];
    assert Value([d]) == et.mday;
  }

  // ---------------------------------------------------------------- whole formats

  /** What a format prints. */
  function Text(et: Fields, format: string): string
  {
    if Render(et, format).Some? then Render(et, format).value else []
  }

  /** The same after white space of the format has skipped that of the value. */
  function Seen(et: Fields, format: string, after: bool): string
  {
    if after then SkipSpaces(Text(et, format)) else Text(et, format)
  }

  lemma {:induction false} CommonRenders(et: Fields, format: string)
    requires Common(format) && InRange(et)
    ensures Render(et, format).Some?
    decreases |format|
  {
    if format != [] {
      hide Piece, InRange;
      RenderFront(et, format);
      CommonRenders(et, format[FrontLength(format)..]);
      if format[0] == '%' {
        PieceStarts(et, format[1]);
      }
    }
  }

  lemma PrependIs(a: Option<string>, b: Option<string>)
    ensures a.Some? && b.Some? ==> Prepend(a.value, b) == Some(a.value + b.value)
  {
  }

  lemma TextSteps(et: Fields, format: string)
    requires Common(format) && InRange(et) && format != []
    ensures format[0] != '%' ==> Text(et, format) == [format[0]] + Text(et, format[1..])
    ensures format[0] == '%' ==> Piece(et, format[1]).Some?
    ensures format[0] == '%' ==> Text(et, format) == Piece(et, format[1]).value + Text(et, format[2..])
  {
    hide Render, Piece, InRange, Prepend;
    CommonRenders(et, format);
    CommonRenders(et, format[FrontLength(format)..]);
    RenderFront(et, format);
    PrependIs(Front(et, format), Render(et, format[FrontLength(format)..]));
  }

  /** Every directive of the format is read back. */
  predicate Recovers(et: Fields, format: string, strict: bool, after: bool)
    requires InRange(et)
  {
    if format == [] then true
    else if format[0] != '%' then Recovers(et, format[1..], strict, !strict && IsSpace(format[0]))
    else
      && |format| > 1 && FrontRecovers(et, format[1], Text(et, format[2..]), after)
      && Recovers(et, format[2..], strict, false)
  }

  /** One directive, read from the printed text with or without its padding. */
  lemma FrontReads(et: Fields, f: Fields, c: char, tail: string, strict: bool, after: bool)
    requires InRange(et) && c in "aAbBdehHmMqSY" && FrontRecovers(et, c, tail, after) && (after ==> !strict)
    ensures Piece(et, c).Some?
    ensures var p := Piece(et, c).value + tail;
            var v := if after then SkipSpaces(p) else p;
            var r := ReadField(f, c, v, strict);
            r.fields == Set1(f, et, c) && r.ok && v[r.used..] == tail
  {
    PieceStarts(et, c);
    var p := Piece(et, c).value;
    if c == 'e' && et.mday < 10 {
      UnpaddedReadsBack(et, f, tail);
    } else {
      FieldReadsBack(et, f, c, tail, strict);
      hide Piece, ReadField;
      assert SkipSpaces(p + tail) == p + tail;
      assert (p + tail)[|p|..] == tail;
    }
  }

  lemma RestoredStep(f: Fields, et: Fields, format: string)
    requires |format| > 1 && format[0] == '%'
    ensures Restored(f, et, format) == Restored(Set1(f, et, format[1]), et, format[2..])
  {
  }

  lemma RestoredLiteral(f: Fields, et: Fields, format: string)
    requires format != [] && format[0] != '%'
    ensures Restored(f, et, format) == Restored(f, et, format[1..])
  {
  }

  lemma SkipTwice(s: string)
    ensures SkipSpaces(SkipSpaces(s)) == SkipSpaces(s)
  {
  }

  /** A literal character is met, and what is left is the text of the rest. */
  lemma LiteralMet(et: Fields, f: Fields, format: string, strict: bool, after: bool)
    requires Common(format) && InRange(et) && format != [] && format[0] != '%' && (after ==> !strict)
    ensures Parse(f, Seen(et, format, after), format, strict) ==
            Parse(f, Seen(et, format[1..], !strict && IsSpace(format[0])), format[1..], strict)
  {
    TextSteps(et, format);
    var t := Text(et, format[1..]);
    assert ([format[0]] + t)[1..] == t;
    SkipTwice([format[0]] + t);
    hide Text, Common;
  }

  /** A per cent sign is met. */
  lemma SignMet(et: Fields, f: Fields, format: string, strict: bool, after: bool)
    requires Common(format) && InRange(et) && (after ==> !strict)
    requires |format| > 1 && format[0] == '%' && format[1] == '%'
    ensures Parse(f, Seen(et, format, after), format, strict) ==
            Parse(f, Seen(et, format[2..], false), format[2..], strict)
  {
    TextSteps(et, format);
    var t := Text(et, format[2..]);
    assert ("%" + t)[1..] == t && SkipSpaces("%" + t) == "%" + t;
    hide Text, Common;
  }

  /** A directive that is read back is met. */
  lemma DirectiveMet(et: Fields, f: Fields, format: string, strict: bool, after: bool)
    requires Common(format) && InRange(et) && (after ==> !strict)
    requires |format| > 1 && format[0] == '%' && format[1] != '%'
    requires FrontRecovers(et, format[1], Text(et, format[2..]), after)
    ensures Parse(f, Seen(et, format, after), format, strict) ==
            Parse(Set1(f, et, format[1]), Seen(et, format[2..], false), format[2..], strict)
  {
    TextSteps(et, format);
    FrontReads(et, f, format[1], Text(et, format[2..]), strict, after);
    hide Text, ReadField, Piece, FrontRecovers, InRange;
  }

  lemma {:induction false} RecoversAll(et: Fields, f: Fields, format: string, strict: bool, after: bool)
    requires Common(format) && InRange(et) && (after ==> !strict) && Recovers(et, format, strict, after)
    ensures Parse(f, Seen(et, format, after), format, strict) == Parsed(Restored(f, et, format), true)
    decreases |format|
  {
    hide InRange, Seen, FrontRecovers;
    if format == [] {
    } else if format[0] != '%' {
      LiteralMet(et, f, format, strict, after);
      RecoversAll(et, f, format[1..], strict, !strict && IsSpace(format[0]));
      RestoredLiteral(f, et, format);
    } else {
      RestoredStep(f, et, format);
      if format[1] == '%' {
        SignMet(et, f, format, strict, after);
      } else {
        DirectiveMet(et, f, format, strict, after);
      }
      RecoversAll(et, Set1(f, et, format[1]), format[2..], strict, false);
      hide Restored, Parse;
    }
  }

  // ---------------------------------------------------------------- reading too far

  /** The letters of w, over and over. */
  function Around(w: string, i: nat): char
    requires i < 2 * |w|
  {
    if i < |w| then w[i] else w[i - |w|]
  }

  /** No name begins at position i when w is written over and over. */
  predicate FreeAt(w: string, i: nat)
    requires i < |w|
  {
    var a := LowerCase(w[i]);
    if |w| < 3 then a in "ceihly"
    else !NameStart(a, LowerCase(Around(w, i + 1)), LowerCase(Around(w, i + 2)))
  }

  ghost predicate Clean(w: string)
  {
    w != [] && forall i :: 0 <= i < |w| ==> IsLetter(w[i]) && FreeAt(w, i)
  }

  lemma CleanDay()
    ensures Clean("day")
  {
    var w := "day";
    assert FreeAt(w, 0) && FreeAt(w, 1) && FreeAt(w, 2);
  }

  lemma CleanSday()
    ensures Clean("sday")
  {
    var w := "sday";
    assert FreeAt(w, 0) && FreeAt(w, 1) && FreeAt(w, 2) && FreeAt(w, 3);
  }

  lemma CleanNesday()
    ensures Clean("nesday")
  {
    var w := "nesday";
    assert FreeAt(w, 0) && FreeAt(w, 1) && FreeAt(w, 2) && FreeAt(w, 3) && FreeAt(w, 4) && FreeAt(w, 5);
  }

  lemma CleanRsday()
    ensures Clean("rsday")
  {
    var w := "rsday";
    assert FreeAt(w, 0) && FreeAt(w, 1) && FreeAt(w, 2) && FreeAt(w, 3) && FreeAt(w, 4);
  }

  lemma CleanUrday()
    ensures Clean("urday")
  {
    var w := "urday";
    assert FreeAt(w, 0) && FreeAt(w, 1) && FreeAt(w, 2) && FreeAt(w, 3) && FreeAt(w, 4);
  }

  lemma CleanUary()
    ensures Clean("uary")
  {
    var w := "uary";
    assert FreeAt(w, 0) && FreeAt(w, 1) && FreeAt(w, 2) && FreeAt(w, 3);
  }

  lemma CleanRuary()
    ensures Clean("ruary")
  {
    var w := "ruary";
    assert FreeAt(w, 0) && FreeAt(w, 1) && FreeAt(w, 2) && FreeAt(w, 3) && FreeAt(w, 4);
  }

  lemma CleanUst()
    ensures Clean("ust")
  {
    var w := "ust";
    assert FreeAt(w, 0) && FreeAt(w, 1) && FreeAt(w, 2);
  }

  lemma CleanTember()
    ensures Clean("tember")
  {
    var w := "tember";
    assert FreeAt(w, 0) && FreeAt(w, 1) && FreeAt(w, 2) && FreeAt(w, 3) && FreeAt(w, 4) && FreeAt(w, 5);
  }

  lemma CleanOber()
    ensures Clean("ober")
  {
    var w := "ober";
    assert FreeAt(w, 0) && FreeAt(w, 1) && FreeAt(w, 2) && FreeAt(w, 3);
  }

  lemma CleanEmber()
    ensures Clean("ember")
  {
    var w := "ember";
    assert FreeAt(w, 0) && FreeAt(w, 1) && FreeAt(w, 2) && FreeAt(w, 3) && FreeAt(w, 4);
  }

  lemma CleanCh()
    ensures Clean("ch")
  {
    var w := "ch";
    assert FreeAt(w, 0) && FreeAt(w, 1);
  }

  lemma CleanIl()
    ensures Clean("il")
  {
    var w := "il";
    assert FreeAt(w, 0) && FreeAt(w, 1);
  }

  lemma CleanE()
    ensures Clean("e")
  {
    var w := "e";
    assert FreeAt(w, 0);
  }

  lemma CleanY()
    ensures Clean("y")
  {
    var w := "y";
    assert FreeAt(w, 0);
  }

  /** What full names have after their short forms. */
  lemma DayTailsClean(i: nat)
    requires i < 7
    ensures Clean(FullDays()[i][3..])
  {
    hide Clean;
    var w := FullDays()[i][3..];
    if i == 0 || i == 1 || i == 5 {
      assert w == "day";
      CleanDay();
    } else if i == 2 {
      assert w == "sday";
      CleanSday();
    } else if i == 3 {
      assert w == "nesday";
      CleanNesday();
    } else if i == 4 {
      assert w == "rsday";
      CleanRsday();
    } else {
      assert w == "urday";
      CleanUrday();
    }
  }

  lemma MonthTailsClean(i: nat)
    requires i < 12 && i != 4
    ensures Clean(FullMonths()[i][3..])
  {
    hide Clean;
    var w := FullMonths()[i][3..];
    if i == 0 {
      assert w == "uary";
      CleanUary();
    } else if i == 1 {
      assert w == "ruary";
      CleanRuary();
    } else if i == 2 {
      assert w == "ch";
      CleanCh();
    } else if i == 3 {
      assert w == "il";
      CleanIl();
    } else if i == 5 {
      assert w == "e";
      CleanE();
    } else if i == 6 {
      assert w == "y";
      CleanY();
    } else if i == 7 {
      assert w == "ust";
      CleanUst();
    } else if i == 8 {
      assert w == "tember";
      CleanTember();
    } else if i == 9 {
      assert w == "ober";
      CleanOber();
    } else {
      assert w == "ember";
      CleanEmber();
    }
  }

  lemma CleanInAnyCase(w: string, v: string)
    requires Clean(w) && |v| == |w| && forall i :: 0 <= i < |w| ==> LowerCase(v[i]) == LowerCase(w[i])
    ensures Clean(v)
  {
    hide NameStart, LowerCase;
    forall i | 0 <= i < |v| ensures IsLetter(v[i]) && FreeAt(v, i) {
      assert IsLetter(w[i]) && FreeAt(w, i);
    }
  }

  lemma CleanTurns(w: string)
    requires Clean(w)
    ensures Clean(w[1..] + [w[0]])
  {
    var v := w[1..] + [w[0]];
    forall i | 0 <= i < |v| ensures IsLetter(v[i]) && FreeAt(v, i) {
      var j := if i + 1 < |w| then i + 1 else 0;
      assert IsLetter(w[j]) && FreeAt(w, j);
      hide Clean, IsLetter, FreeAt;
      FreeTurns(w, i, j);
    }
  }

  lemma FreeTurns(w: string, i: nat, j: nat)
    requires i < |w| && j == (if i + 1 < |w| then i + 1 else 0)
    ensures var v := w[1..] + [w[0]]; v[i] == w[j] && FreeAt(v, i) == FreeAt(w, j)
  {
    hide NameStart, LowerCase;
    var v := w[1..] + [w[0]];
    if |w| >= 3 {
      assert Around(v, i + 1) == Around(w, j + 1) && Around(v, i + 2) == Around(w, j + 2);
    }
  }

  /** No directive prints the beginning of a clean word. */
  lemma NotFromDirective(et: Fields, c: char, tail: string, w: string)
    requires InRange(et) && c in "%aAbBdehHmMqSY" && Piece(et, c).Some? && Clean(w)
    ensures !(w <= Piece(et, c).value + tail)
  {
    hide Piece, InRange;
    PieceStarts(et, c);
    assert IsLetter(w[0]) && FreeAt(w, 0);
    hide Clean;
    if c in "aAbBh" {
      NameStarts(et, c);
      NoNameAhead(Piece(et, c).value, tail, w);
    }
  }

  lemma NoNameAhead(p: string, tail: string, w: string)
    requires LikeAName(p) && w != [] && FreeAt(w, 0)
    ensures !(w <= p + tail)
  {
  }

  /** If the parser is ahead of the format by a clean word, it stays so and fails. */
  lemma {:induction false} AheadFails(et: Fields, f: Fields, format: string, w: string, strict: bool)
    requires Common(format) && InRange(et) && Clean(w) && w <= Text(et, format)
    ensures !Parse(f, Text(et, format)[|w|..], format, strict).ok
    decreases |format|
  {
    var t := Text(et, format);
    if format == [] {
      assert false;
    } else if format[0] == '%' {
      TextSteps(et, format);
      NotFromDirective(et, format[1], Text(et, format[2..]), w);
    } else {
      TextSteps(et, format);
      var rest := format[1..];
      assert t[0] == format[0] == w[0] && t[1..] == Text(et, rest);
      assert IsLetter(w[0]);
      hide Text, InRange, Clean;
      var v := t[|w|..];
      if v != [] && v[0] == format[0] {
        var turned := w[1..] + [w[0]];
        assert turned <= t[1..] by {
          assert forall i :: 0 <= i < |w| ==> turned[i] == t[1..][i];
        }
        assert v[1..] == t[1..][|turned|..];
        CleanTurns(w);
        AheadFails(et, f, rest, turned, strict);
      }
    }
  }

  /** Where a short name goes on as its full name, the parser takes all of that, and fails on the rest. */
  lemma TooFarFails(et: Fields, f: Fields, format: string, strict: bool)
    requires Common(format) && InRange(et) && |format| > 1 && format[0] == '%' && format[1] in "abh"
    requires !FrontRecovers(et, format[1], Text(et, format[2..]), false)
    ensures !Parse(f, Text(et, format), format, strict).ok
  {
    hide InRange, FrontRecovers, Piece, ReadField, Parse, Text, Render, Clean;
    TextSteps(et, format);
    var c, rest := format[1], format[2..];
    ReadTooFar(et, f, c, Text(et, rest), strict);
    ReadAheadFails(et, f, c, rest, Piece(et, c).value, strict);
    assert format == ['%', c] + rest;
  }

  lemma ReadAheadFails(et: Fields, f: Fields, c: char, rest: string, p: string, strict: bool)
    requires Common(rest) && InRange(et) && c != '%'
    requires var tail := Text(et, rest);
             var r := ReadField(f, c, p + tail, strict);
             r.ok && |p| < r.used <= |p| + |tail| && Clean(tail[..r.used - |p|])
    ensures !Parse(f, p + Text(et, rest), ['%', c] + rest, strict).ok
  {
    hide *;
    var tail := Text(et, rest);
    var v, n := p + tail, ReadField(f, c, p + tail, strict).used - |p|;
    ParseDirective(f, v, c, rest, strict);
    AheadFails(et, ReadField(f, c, v, strict).fields, rest, tail[..n], strict);
    assert v[|p| + n..] == tail[n..];
  }

  lemma ReadTooFar(et: Fields, f: Fields, c: char, tail: string, strict: bool)
    requires InRange(et) && c in "abh" && !FrontRecovers(et, c, tail, false) && Piece(et, c).Some?
    ensures var p := Piece(et, c).value;
            var r := ReadField(f, c, p + tail, strict);
            r.ok && |p| < r.used <= |p| + |tail| && Clean(tail[..r.used - |p|])
  {
    hide FindName, Clean, ToldApart, Code, LikeAName, ShortDays, FullDays, ShortMonths, FullMonths;
    if c == 'a' {
      DayCode(et.wday);
      DaysToldApart();
      DayTailsClean(et.wday);
      TailGoesOn(FullDays(), ShortDays(), et.wday, tail);
    } else {
      MonthCode(et.mon);
      MonthsToldApart();
      MayIsShort(et.mon, tail);
      TailGoesOn(FullMonths(), ShortMonths(), et.mon, tail);
    }
  }

  lemma MayIsShort(mon: nat, tail: string)
    requires mon < 12 && GoesOn(ShortMonths()[mon], FullMonths()[mon], tail)
    ensures Clean(FullMonths()[mon][3..])
  {
    hide Clean, CaselessStart;
    assert |FullMonths()[4]| == 3;
    MonthTailsClean(mon);
  }

  lemma TailGoesOn(full: seq<string>, short: seq<string>, m: nat, tail: string)
    requires ToldApart(full, short) && m < |full| && GoesOn(short[m], full[m], tail) && Clean(full[m][3..])
    ensures |full[m]| <= 3 + |tail| && Clean(tail[..|full[m]| - 3])
    ensures FindName(full, short, short[m] + tail, 0) == Some(NameRead(m, |full[m]|))
  {
    var v := short[m] + tail;
    SameCode(v, full[m]);
    OthersSkipped(full, short, v, 0, m);
    CleanTail(short[m], full[m], tail);
    hide Clean;
  }

  lemma CleanTail(short: string, full: string, tail: string)
    requires |short| == 3 && GoesOn(short, full, tail) && Clean(full[3..])
    ensures |full| <= 3 + |tail| && Clean(tail[..|full| - 3])
  {
    hide Clean, LowerCase;
    var v, w, u := short + tail, full[3..], tail[..|full| - 3];
    forall i | 0 <= i < |w| ensures LowerCase(u[i]) == LowerCase(w[i]) {
      assert v[i + 3] == tail[i] && LowerCase(v[i + 3]) == LowerCase(full[i + 3]);
    }
    CleanInAnyCase(w, u);
  }

  // ---------------------------------------------------------------- print, then parse: exactly when

  /** No digit follows a day that may be padded. */
  predicate NoDigitAfterDay(et: Fields, format: string)
  {
    if format == [] then true
    else if format[0] != '%' then NoDigitAfterDay(et, format[1..])
    else if |format| == 1 then true
    else
      var tail := Text(et, format[2..]);
      (format[1] == 'e' && tail != [] ==> !IsNumber(tail[0])) && NoDigitAfterDay(et, format[2..])
  }

  /** The padding of a day that no white space has skipped is refused. */
  lemma PaddingRefused(et: Fields, f: Fields, format: string, strict: bool)
    requires Common(format) && InRange(et) && |format| > 1 && format[0] == '%' && format[1] == 'e' && et.mday < 10
    ensures !Parse(f, Text(et, format), format, strict).ok
  {
    TextSteps(et, format);
    assert Text(et, format)[0] == ' ';
  }

  lemma {:induction false} UnrecoveredFails(et: Fields, f: Fields, format: string, strict: bool, after: bool)
    requires Common(format) && InRange(et) && (after ==> !strict) && !Recovers(et, format, strict, after)
    requires strict || et.mday >= 10 || NoDigitAfterDay(et, format)
    ensures !Parse(f, Seen(et, format, after), format, strict).ok
    decreases |format|
  {
    if format[0] != '%' {
      hide InRange, Seen, FrontRecovers;
      LiteralMet(et, f, format, strict, after);
      UnrecoveredFails(et, f, format[1..], strict, !strict && IsSpace(format[0]));
    } else if format[1] == '%' {
      hide InRange, Seen;
      SignMet(et, f, format, strict, after);
      UnrecoveredFails(et, f, format[2..], strict, false);
    } else if FrontRecovers(et, format[1], Text(et, format[2..]), after) {
      hide InRange, Seen, FrontRecovers;
      DirectiveMet(et, f, format, strict, after);
      UnrecoveredFails(et, Set1(f, et, format[1]), format[2..], strict, false);
    } else if format[1] == 'e' {
      PaddingRefused(et, f, format, strict);
    } else {
      TextSteps(et, format);
      PieceStarts(et, format[1]);
      hide Piece;
      assert Seen(et, format, after) == Text(et, format);
      TooFarFails(et, f, format, strict);
    }
  }

  /**
    Strict parsing accepts what printing produced, and restores exactly the fields the
    format names, if and only if every directive recovers: no padded day, and no short
    name that the text continues to its full form. Otherwise it refuses.
   */
  lemma StrictRoundTrip(et: Fields, f: Fields, format: string)
    requires Common(format) && InRange(et)
    ensures Render(et, format).Some?
    ensures var p := Parse(f, Render(et, format).value, format, true);
            if Recovers(et, format, true, false) then p == Parsed(Restored(f, et, format), true) else !p.ok
  {
    CommonRenders(et, format);
    hide InRange, Parse, Recovers, Restored;
    if Recovers(et, format, true, false) {
      RecoversAll(et, f, format, true, false);
    } else {
      UnrecoveredFails(et, f, format, true, false);
    }
  }

  /**
    Loose parsing likewise, where white space before a padded day makes up for its padding.
    Where a digit follows a padded day, only one half is stated.
   */
  lemma LooseRoundTrip(et: Fields, f: Fields, format: string)
    requires Common(format) && InRange(et)
    ensures Render(et, format).Some?
    ensures var p := Parse(f, Render(et, format).value, format, false);
            && (Recovers(et, format, false, false) ==> p == Parsed(Restored(f, et, format), true))
            && (!Recovers(et, format, false, false) && (et.mday >= 10 || NoDigitAfterDay(et, format)) ==> !p.ok)
  {
    CommonRenders(et, format);
    hide InRange, Parse, Recovers, Restored, NoDigitAfterDay;
    if Recovers(et, format, false, false) {
      RecoversAll(et, f, format, false, false);
    } else if et.mday >= 10 || NoDigitAfterDay(et, format) {
      UnrecoveredFails(et, f, format, false, false);
    }
  }

  /** A digit after a padded day may be taken for a part of it, and the fields still come out right. */
  lemma LuckyDay(f: Fields)
    requires InRange(f)
    ensures var et := f.(mday := 1);
            && Text(et, " %e%d") == "  101" && !Recovers(et, " %e%d", false, false)
            && Parse(f, "  101", " %e%d", false) == Parsed(et, true)
  {
    LuckyText(f.(mday := 1));
    LuckyRead(f);
    hide Text, Parse;
    assert " %e%d"[1..] == "%e%d" && "%e%d"[2..] == "%d";
  }

  lemma TextOfDirective(et: Fields, c: char, rest: string)
    requires InRange(et) && c in "%aAbBdehHmMqSY" && Common(rest)
    ensures Common(['%', c] + rest) && Piece(et, c).Some?
    ensures Text(et, ['%', c] + rest) == Piece(et, c).value + Text(et, rest)
  {
    var format := ['%', c] + rest;
    assert format[2..] == rest;
    hide Text, Piece, InRange;
    TextSteps(et, format);
  }

  lemma LuckyText(et: Fields)
    requires InRange(et) && et.mday == 1
    ensures Text(et, "%d") == "01" && Text(et, " %e%d") == "  101"
  {
    assert Text(et, []) == [] && Common([]);
    DayOne(et);
    hide Text, Piece, InRange;
    TextOfDirective(et, 'd', []);
    assert ['%', 'd'] + [] == "%d" && "01" + [] == "01";
    hide Common;
    TextOfDirective(et, 'e', "%d");
    assert ['%', 'e'] + "%d" == "%e%d" && " 1" + "01" == " 101";
    LuckySpace(et);
  }

  lemma LuckySpace(et: Fields)
    requires InRange(et) && Common("%e%d") && Text(et, "%e%d") == " 101"
    ensures Text(et, " %e%d") == "  101"
  {
    assert " %e%d"[1..] == "%e%d";
    hide Text, InRange;
    TextSteps(et, " %e%d");
    hide Common;
    assert [' '] + " 101" == "  101";
  }

  lemma DayOne(et: Fields)
    requires et.mday == 1
    ensures Piece(et, 'd') == Some("01") && Piece(et, 'e') == Some(" 1")
  {
    hide NameAt;
    TwoDigits(1);
    assert Piece(et, 'd') == Some(Digits(1, 2)) && Piece(et, 'e') == Some(SpacePadded(1));
    hide Digits, Piece;
    assert DigitOf(0) == '0' && DigitOf(1) == '1';
  }

  lemma ParseDirective(f: Fields, v: string, c: char, rest: string, strict: bool)
    requires c != '%'
    ensures var r := ReadField(f, c, v, strict);
            Parse(f, v, ['%', c] + rest, strict) ==
            if r.ok then Parse(r.fields, v[r.used..], rest, strict) else Parsed(r.fields, false)
  {
    hide ReadField;
    assert (['%', c] + rest)[2..] == rest;
  }

  lemma LuckyRead(f: Fields)
    ensures Parse(f, "  101", " %e%d", false) == Parsed(f.(mday := 1), true)
  {
    var g := f.(mday := 10);
    LuckyNumbers(f);
    assert Parse(g.(mday := 1), [], [], false) == Parsed(f.(mday := 1), true);
    assert Parse(f, "  101", " %e%d", false) == Parse(f, "101", "%e%d", false) by {
      assert " %e%d"[1..] == "%e%d";
      LuckySkip();
      hide ReadField, SkipSpaces;
    }
    hide ReadField, Parse;
    ParseDirective(g, "1", 'd', [], false);
    assert ['%', 'd'] + [] == "%d" && "1"[1..] == [];
    ParseDirective(f, "101", 'e', "%d", false);
    assert ['%', 'e'] + "%d" == "%e%d" && "101"[2..] == "1";
  }

  lemma LuckySkip()
    ensures SkipSpaces("  101") == "101"
  {
    assert "  101"[1..] == " 101" && " 101"[1..] == "101";
    assert SkipSpaces("101") == "101";
    assert SkipSpaces(" 101") == "101";
  }

  lemma LuckyNumbers(f: Fields)
    ensures ReadField(f, 'e', "101", false) == FieldRead(f.(mday := 10), true, 2)
    ensures var g := f.(mday := 10); ReadField(g, 'd', "1", false) == FieldRead(g.(mday := 1), true, 1)
  {
    assert ReadNumber("101", 2, f.mday, false) == Number(true, 10, 2) by {
      assert "101"[..2] == "10" && "10"[..1] == "1" && "1"[..0] == [];
      RunIs("10", 2);
      assert Value("1") == 1;
      assert Value("10") == 10;
    }
    assert ReadNumber("1", 2, 10, false) == Number(true, 1, 1) by {
      assert "1"[..1] == "1" && "1"[..0] == [];
      RunIs("1", 1);
      assert Value("1") == 1;
    }
    hide ReadNumber, ReadDay, ReadMonth;
  }

  /** Without short names, the padded day alone decides. */
  lemma {:induction false} OnlyThePaddedDay(et: Fields, format: string)
    requires Common(format) && InRange(et) && !Names(format, 'a') && !Names(format, 'b') && !Names(format, 'h')
    ensures Recovers(et, format, true, false) <==> et.mday >= 10 || !Names(format, 'e')
    decreases |format|
  {
    hide Text;
    if format == [] {
    } else if format[0] != '%' {
      OnlyThePaddedDay(et, format[1..]);
    } else {
      OnlyThePaddedDay(et, format[2..]);
    }
  }

  lemma PaddedDayExactly(et: Fields, f: Fields, format: string)
    requires Common(format) && InRange(et) && !Names(format, 'a') && !Names(format, 'b') && !Names(format, 'h')
    ensures Render(et, format).Some?
    ensures Parse(f, Render(et, format).value, format, true) == Parsed(Restored(f, et, format), true)
       <==> et.mday >= 10 || !Names(format, 'e')
  {
    hide Common, InRange, Names, Parse, Restored, Recovers;
    OnlyThePaddedDay(et, format);
    StrictRoundTrip(et, f, format);
  }

  /** "%buary" prints January in full, and is then not read back. */
  lemma ShortNameFails(et: Fields, f: Fields, strict: bool)
    requires InRange(et) && et.mon == 0
    ensures Render(et, "%buary") == Some("January") && !Parse(f, "January", "%buary", strict).ok
  {
    var format := "%buary";
    var tail := "uary";
    assert Text(et, tail) == tail by {
      assert tail[1..] == "ary" && "ary"[1..] == "ry" && "ry"[1..] == "y" && "y"[1..] == [];
      assert Text(et, []) == [];
      TextSteps(et, "y");
      TextSteps(et, "ry");
      TextSteps(et, "ary");
      TextSteps(et, "uary");
    }
    assert format[2..] == tail && Common(tail);
    TextSteps(et, format);
    CommonRenders(et, format);
    assert "Jan" + tail == "January";
    assert GoesOn("Jan", "January", tail);
    TooFarFails(et, f, format, strict);
  }

  /**
    For every format of literals, padded numbers and full names, parsing accepts what
    printing produced, strictly or not, and restores exactly the fields the format names.
   */
  lemma PrintParseRoundTrip(et: Fields, f: Fields, format: string, strict: bool)
    requires Simple(format) && InRange(et)
    ensures Render(et, format).Some?
    ensures Parse(f, Render(et, format).value, format, strict) == Parsed(Restored(f, et, format), true)
  {
    SimpleRecovers(et, format, strict, false);
    CommonRenders(et, format);
    hide Simple, InRange, Parse, Recovers, Restored;
    RecoversAll(et, f, format, strict, false);
  }

  lemma {:induction false} SimpleRecovers(et: Fields, format: string, strict: bool, after: bool)
    requires Simple(format) && InRange(et)
    ensures Common(format) && Recovers(et, format, strict, after)
    decreases |format|
  {
    hide InRange, Text;
    if format == [] {
    } else if format[0] != '%' {
      SimpleRecovers(et, format[1..], strict, !strict && IsSpace(format[0]));
    } else {
      SimpleRecovers(et, format[2..], strict, false);
    }
  }

  // ---------------------------------------------------------------- concatenated formats

  lemma {:induction false} SimpleAppend(a: string, b: string)
    requires Simple(a) && Simple(b)
    ensures Simple(a + b)
    ensures forall c :: Names(a + b, c) <==> Names(a, c) || Names(b, c)
    decreases |a|
  {
    if a == [] {
      assert a + b == b;
    } else {
      var k := if a[0] == '%' then 2 else 1;
      SimpleAppend(a[k..], b);
      assert (a + b)[k..] == a[k..] + b;
    }
  }

  lemma {:induction false} RenderAppend(et: Fields, a: string, b: string)
    requires Simple(a) && Render(et, a).Some?
    ensures Render(et, a + b) == Prepend(Render(et, a).value, Render(et, b))
    decreases |a|
  {
    if a == [] {
      assert a + b == b;
      PrependTwice([], [], Render(et, b));
    } else {
      var k := FrontLength(a);
      assert (a + b)[k..] == a[k..] + b;
      RenderFront(et, a);
      RenderFront(et, a + b);
      RenderAppend(et, a[k..], b);
      PrependTwice(Front(et, a).value, Render(et, a[k..]).value, Render(et, b));
    }
  }

  lemma SimpleStep(c: char, rest: string)
    ensures c != '%' ==> (Simple([c] + rest) <==> Simple(rest))
    ensures c != '%' ==> forall x :: Names([c] + rest, x) <==> Names(rest, x)
    ensures c in "%ABdHmMqSY" ==> (Simple(['%', c] + rest) <==> Simple(rest))
    ensures forall x :: Names(['%', c] + rest, x) <==> x == c || Names(rest, x)
  {
    assert ([c] + rest)[1..] == rest && (['%', c] + rest)[2..] == rest;
  }

  lemma Separated(sep: char, c: char, rest: string)
    requires sep != '%' && c in "dHmMqSY"
    ensures Simple([sep, '%', c] + rest) <==> Simple(rest)
    ensures forall x :: Names([sep, '%', c] + rest, x) <==> x == c || Names(rest, x)
  {
    hide Simple, Names;
    SimpleStep(c, rest);
    SimpleStep(sep, ['%', c] + rest);
    assert [sep] + (['%', c] + rest) == [sep, '%', c] + rest;
  }

  lemma SimpleThree(a: char, b: char, c: char, sep: char)
    requires a in "dHmMqSY" && b in "dHmMqSY" && c in "dHmMqSY" && sep != '%'
    ensures var f := ['%', a, sep, '%', b, sep, '%', c];
            Simple(f) && forall x :: Names(f, x) <==> x == a || x == b || x == c
  {
    assert Simple([]) && forall x :: !Names([], x);
    hide Simple, Names;
    Separated(sep, c, []);
    assert [sep, '%', c] + [] == [sep, '%', c];
    Separated(sep, b, [sep, '%', c]);
    assert [sep, '%', b] + [sep, '%', c] == [sep, '%', b, sep, '%', c];
    SimpleStep(a, [sep, '%', b, sep, '%', c]);
    assert ['%', a] + [sep, '%', b, sep, '%', c] == ['%', a, sep, '%', b, sep, '%', c];
  }

  // ---------------------------------------------------------------- gm_ft and set_ft

  const FT_PRINTED := "%F %T"
  const FT_PARSED := DATE + " " + CLOCK

  /** get_gm_time() */
  function FieldsOf(sec: int, usec: int): (f: Fields)
    ensures 0 <= f.mon < 12
  {
    var tm := TimeToGm(sec);
    Fields(tm.year, tm.mon, tm.mday, tm.hour, tm.min, tm.sec, usec, tm.wday, Gmt)
  }

  /** set_ft: the (sec, usec) it yields, or None where it throws. */
  function SetFt(value: string, strict: bool): Option<(int, int)>
  {
    var p := Parse(FieldsOf(0, 0), value, FT_PARSED, strict);
    if p.ok then Some((SecondsOf(p.fields), p.fields.usec)) else None
  }

  /** The first second of year 10000 in this calendar. */
  const FT_LIMIT := 253407484800

  lemma FtPrints(et: Fields)
    ensures Render(et, FT_PRINTED).Some? && |Render(et, FT_PRINTED).value| == 19
    ensures Render(et, FT_PRINTED) == Render(et, FT_PARSED)
  {
    NeverEmpty(et);
    var d, c := Render(et, DATE).value, Render(et, CLOCK).value;
    assert Render(et, []) == Some([]);
    assert Render(et, "%T") == Some(c) by {
      RenderFront(et, "%T");
      assert "%T"[2..] == [] && c + [] == c;
    }
    assert Render(et, " %T") == Some(" " + c) by {
      RenderFront(et, " %T");
      assert " %T"[1..] == "%T";
    }
    assert Render(et, FT_PRINTED) == Some(d + (" " + c)) by {
      RenderFront(et, FT_PRINTED);
      assert FT_PRINTED[2..] == " %T";
    }
    hide Render;
    SimpleThree('Y', 'm', 'd', '-');
    assert DATE + " " + CLOCK == DATE + ([' '] + CLOCK);
    RenderAppend(et, DATE, [' '] + CLOCK);
    RenderLiteral(et, ' ', CLOCK);
  }

  lemma FtNames()
    ensures Simple(FT_PARSED)
    ensures forall x :: Names(FT_PARSED, x) <==> x == 'Y' || x == 'm' || x == 'd' || x == 'H' || x == 'M' || x == 'S'
  {
    hide Simple, Names;
    SimpleThree('Y', 'm', 'd', '-');
    SimpleThree('H', 'M', 'S', ':');
    SimpleStep(' ', CLOCK);
    SimpleAppend(DATE, [' '] + CLOCK);
    assert DATE + " " + CLOCK == DATE + ([' '] + CLOCK);
  }

  /** Every field that a successful parse sets is in range. */
  lemma FieldKeepsRange(f: Fields, c: char, v: string, strict: bool)
    requires InRange(f)
    ensures var r := ReadField(f, c, v, strict);
            r.ok ==> InRange(r.fields) && (c != 'q' ==> r.fields.usec == f.usec) && r.fields.zone == f.zone
  {
    hide ReadNumber, Pow10, ReadDay, ReadMonth;
    Powers();
    match c {
      case 'd' => ReadBound(v, 2, f.mday, strict);
      case 'e' => ReadBound(v, 2, f.mday, strict);
      case 'H' => ReadBound(v, 2, f.hour, strict);
      case 'm' => ReadBound(v, 2, f.mon, strict);
      case 'M' => ReadBound(v, 2, f.min, strict);
      case 'S' => ReadBound(v, 2, f.sec, strict);
      case 'q' => ReadBound(v, 6, f.usec, strict);
      case 'Y' => ReadBound(v, 4, f.year, strict);
      case _ =>
    }
  }

  lemma {:induction false} ParseKeepsRange(f: Fields, v: string, format: string, strict: bool)
    requires InRange(f)
    ensures var r := Parse(f, v, format, strict);
            r.ok ==> InRange(r.fields) && (!Names(format, 'q') ==> r.fields.usec == f.usec) && r.fields.zone == f.zone
    decreases |format|
  {
    hide ReadField, InRange;
    if format == [] {
    } else if format[0] == '%' {
      if |format| == 1 {
      } else if format[1] == '%' {
        if v != [] { ParseKeepsRange(f, v[1..], format[2..], strict); }
      } else {
        var r := ReadField(f, format[1], v, strict);
        FieldKeepsRange(f, format[1], v, strict);
        if r.ok { ParseKeepsRange(r.fields, v[r.used..], format[2..], strict); }
      }
    } else if !strict && IsSpace(format[0]) {
      ParseKeepsRange(f, SkipSpaces(v), format[1..], strict);
    } else if v != [] {
      ParseKeepsRange(f, v[1..], format[1..], strict);
    }
  }

  lemma SecondsInRange(f: Fields)
    requires InRange(f) && f.zone == Gmt
    ensures 0 <= SecondsOf(f) < FT_LIMIT
  {
  }

  lemma LastYear(tm: Tm)
    requires Valid(tm) && GmToTime(tm) < FT_LIMIT
    ensures tm.year <= 8099
  {
  }

  lemma WeekDay(sec: int)
    requires sec >= 0
    ensures 0 <= TimeToGm(sec).wday < 7
  {
    hide DateOf;
  }

  lemma FieldsInRange(sec: int, usec: int)
    requires 0 <= sec < FT_LIMIT && 0 <= usec < USEC_MAX
    ensures InRange(FieldsOf(sec, usec)) && SecondsOf(FieldsOf(sec, usec)) == sec && FieldsOf(sec, usec).zone == Gmt
  {
    WeekDay(sec);
    hide TimeToGm;
    TimeToGmIsValid(sec);
    TimeRoundTrip(sec);
    LastYear(TimeToGm(sec));
  }

  /** gm_ft */
  function GmFt(sec: int, usec: int): (s: string)
    ensures |s| == 19
  {
    FtPrints(FieldsOf(sec, usec));
    Render(FieldsOf(sec, usec), FT_PRINTED).value
  }

  lemma FtRestores(sec: int, usec: int, strict: bool)
    requires 0 <= sec < FT_LIMIT && 0 <= usec < USEC_MAX
    ensures SetFt(GmFt(sec, usec), strict) == Some((sec, 0))
  {
    hide Render, Parse, FieldsOf, Names, Simple;
    var et, f := FieldsOf(sec, usec), FieldsOf(0, 0);
    FtPrints(et);
    FtNames();
    FieldsInRange(sec, usec);
    assert f.usec == 0 && f.zone == Gmt by { Epoch(); }
    PrintParseRoundTrip(et, f, FT_PARSED, strict);
    assert Restored(f, et, FT_PARSED) == et.(usec := f.usec, wday := f.wday, zone := f.zone);
  }

  lemma Epoch()
    ensures FieldsOf(0, 0).usec == 0 && FieldsOf(0, 0).zone == Gmt && InRange(FieldsOf(0, 0))
  {
    FieldsInRange(0, 0);
  }

  lemma SetFtInRange(value: string, strict: bool)
    ensures var r := SetFt(value, strict); r.Some? ==> 0 <= r.value.0 < FT_LIMIT && r.value.1 == 0
  {
    hide Parse, FieldsOf, Names, Simple, SecondsOf;
    Epoch();
    FtNames();
    ParseKeepsRange(FieldsOf(0, 0), value, FT_PARSED, strict);
    var p := Parse(FieldsOf(0, 0), value, FT_PARSED, strict);
    if p.ok {
      SecondsInRange(p.fields);
    }
  }

  /**
    set_ft gives back the seconds that gm_ft printed, strictly or not, exactly for times
    from 1970 up to year 9999; the microseconds are lost.
   */
  lemma FtRoundTrip(sec: int, usec: int, strict: bool)
    requires 0 <= usec < USEC_MAX
    ensures SetFt(GmFt(sec, usec), strict) == Some((sec, 0)) <==> 0 <= sec < FT_LIMIT
  {
    hide SetFt, GmFt;
    SetFtInRange(GmFt(sec, usec), strict);
    if 0 <= sec < FT_LIMIT {
      FtRestores(sec, usec, strict);
    }
  }

  lemma TensDigit(day: int)
    requires 10 <= day <= 31
    ensures SpacePadded(day) == Digits(day, 2)
  {
    TwoDigits(day);
    SmallDigit(Div(day, 10));
    hide Digits, DigitOf;
  }

  lemma TwoDigits(n: int)
    ensures Digits(n, 2) == [DigitOf(Div(n, 10)), DigitOf(n)]
  {
    hide DigitOf, Div;
    assert Digits(Div(n, 10), 1) == [] + [DigitOf(Div(n, 10))];
  }

  lemma SmallDigit(k: int)
    requires 0 <= k <= 9
    ensures DigitOf(k) == (('0' as int + k) % 256) as char
  {
  }
}
