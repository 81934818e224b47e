/** The gNB's timestamps: the date-time parser of the collector
    (ran/collector/src/lib.rs, RFC 3339 section 5.6 with an optional zone) and
    the printer of the gNB simulator (ran/sim/gnb_sim.py). Text is a sequence
    of characters; the machine integers wrap as in a release build. */
module Timestamp {
  import opened Base
  import opened Calendar
  import opened Text

  // ----- The string operations the parser is built from -----

  predicate IsWhitespace(c: char) {
    var u := c as int;
    9 <= u <= 13 || u == 0x20 || u == 0x85 || u == 0xA0 || u == 0x1680 || 0x2000 <= u <= 0x200A
    || u == 0x2028 || u == 0x2029 || u == 0x202F || u == 0x205F || u == 0x3000
  }

  function Trim(s: string): string {
    if s == [] then s
    else if IsWhitespace(s[0]) then Trim(s[1..])
    else if IsWhitespace(s[|s| - 1]) then Trim(s[..|s| - 1])
    else s
  }

  predicate IsSign(c: char) { c == '+' || c == '-' }

  predicate IsDateTimeSeparator(c: char) { c == 'T' || c == ' ' }

  predicate IsPoint(c: char) { c == '.' }

  ghost predicate Free(p: char -> bool, s: string) {
    forall i :: 0 <= i < |s| ==> !p(s[i])
  }

  /** The parts around the first character that `p` accepts. */
  function SplitOnce(s: string, p: char -> bool): Option<(string, string)> {
    if s == [] then None
    else if p(s[0]) then Some(([], s[1..]))
    else match SplitOnce(s[1..], p)
      case None => None
      case Some((a, b)) => Some(([s[0]] + a, b))
  }

  function Split(s: string, sep: char): (parts: seq<string>)
    ensures parts != []
  {
    if s == [] then [[]]
    else
      var rest := Split(s[1..], sep);
      if s[0] == sep then [[]] + rest else [[s[0]] + rest[0]] + rest[1..]
  }

  /** Index of the last character that `p` accepts. */
  function FindLast(s: string, p: char -> bool): (r: Option<nat>)
    ensures r.Some? ==> r.value < |s| && p(s[r.value])
  {
    if s == [] then None
    else if p(s[|s| - 1]) then Some(|s| - 1)
    else FindLast(s[..|s| - 1], p)
  }

  /** `str::parse::<i64>`: an optional sign, at least one digit, in range. */
  function ParseI64(s: string): Option<i64> {
    var body := if s != [] && IsSign(s[0]) then s[1..] else s;
    if body == [] || !AllDigits(body) then None
    else
      var v: int := if s[0] == '-' then -(DigitsValue(body) as int) else DigitsValue(body);
      if I64_MIN <= v <= I64_MAX then Some(v) else None
  }

  /** Any decimal is read as its number, with a plus or without, exactly when
      the number fits 64 bits. */
  lemma IntegerReads(n: int)
    ensures ParseI64(Decimal(n))
         == if -0x8000_0000_0000_0000 <= n <= 0x7FFF_FFFF_FFFF_FFFF then Some(n) else None
    ensures n >= 0 ==> ParseI64("+" + Decimal(n)) == ParseI64(Decimal(n))
    ensures ParseI64("") == None && ParseI64("-") == None && ParseI64("+") == None
  {
    DecimalReads(n);
    if n >= 0 {
      assert ("+" + Decimal(n))[1..] == Decimal(n);
    }
  }

  /** And nothing else is: a text with anything but digits after its sign is no
      number. */
  lemma OnlyIntegersRead(s: string)
    requires exists i :: 0 <= i < |s| && !IsDigit(s[i]) && (i > 0 || (s[i] != '+' && s[i] != '-'))
    ensures ParseI64(s) == None
  {
    var i :| 0 <= i < |s| && !IsDigit(s[i]) && (i > 0 || (s[i] != '+' && s[i] != '-'));
    if IsSign(s[0]) {
      assert s[1..][i - 1] == s[i];
    }
  }

  function Pow10(n: nat): nat {
    if n == 0 then 1 else 10 * Pow10(n - 1)
  }

  // ----- The parser -----

  /** `+HH[:MM]` or `-HH[:MM]`, in seconds. */
  function ParseOffset(zone: string): Option<int>
    requires zone != []
  {
    var sign: int := if zone[0] == '-' then -1 else 1;
    var z := Split(zone[1..], ':');
    match (ParseI64(z[0]), ParseI64(if 1 < |z| then z[1] else "0"))
    case (Some(zh), Some(zm)) =>
      var seconds := (zh as int) * 3600 + (zm as int) * 60;
      Some(sign * seconds)
    case (_, _) => None
  }

  function ParseZone(time: string): Option<(string, int)> {
    if time != [] && time[|time| - 1] == 'Z' then Some((time[..|time| - 1], 0))
    else match FindLast(time, IsSign)
      case None => Some((time, 0))
      case Some(pos) =>
        if pos < 8 then Some((time, 0))
        else match ParseOffset(time[pos..])
          case Some(offset) => Some((time[..pos], offset))
          case None => None
  }

  /** The fraction, to nine digits; later ones are dropped. */
  function ParseFraction(frac: string): Option<int> {
    if frac == [] then Some(0)
    else
      var digits := if |frac| <= 9 then frac else frac[..9];
      match ParseI64(digits)
      case Some(v) => Some(v * Pow10(9 - |digits|))
      case None => None
  }

  function ParseSeconds(text: string): Option<(i64, int)> {
    var (whole, frac) := match SplitOnce(text, IsPoint) case Some(parts) => parts case None => (text, []);
    match (ParseI64(whole), ParseFraction(frac))
    case (Some(sec), Some(fracNs)) => Some((sec, fracNs))
    case (_, _) => None
  }

  predicate InRange(mo: int, da: int, h: int, mi: int, sec: int) {
    1 <= mo <= 12 && 1 <= da <= 31 && h <= 23 && mi <= 59 && sec <= 60
  }

  function EpochNs(y: i64, mo: int, da: int, h: int, mi: int, sec: int, offset: int, fracNs: int): i64 {
    var days := DaysFromMarchYear(if mo <= 2 then WrapI64(y - 1) else y, mo, da);
    var secs := days * 86_400 + h * 3600 + mi * 60 + sec - offset;
    WrapI64(secs * 1_000_000_000 + fracNs)
  }

  function ParseFields(y: i64, mo: i64, da: i64, c: seq<string>, offset: int): Option<i64> {
    if |c| < 3 then None
    else match (ParseI64(c[0]), ParseI64(c[1]), ParseSeconds(c[2]))
      case (Some(h), Some(mi), Some((sec, fracNs))) =>
        if !InRange(mo, da, h, mi, sec) then None
        else Some(EpochNs(y, mo, da, h, mi, sec, offset, fracNs))
      case (_, _, _) => None
  }

  function ParseClock(y: i64, mo: i64, da: i64, time: string): Option<i64> {
    match ParseZone(time)
    case None => None
    case Some((clock, offset)) => ParseFields(y, mo, da, Split(clock, ':'), offset)
  }

  /** `parse_iso8601_ns`: nanoseconds since 1970-01-01. */
  function ParseIso8601Ns(text: string): Option<i64> {
    match SplitOnce(Trim(text), IsDateTimeSeparator)
    case None => None
    case Some((date, time)) =>
      var d := Split(date, '-');
      if |d| < 3 then None
      else match (ParseI64(d[0]), ParseI64(d[1]), ParseI64(d[2]))
        case (Some(y), Some(mo), Some(da)) => ParseClock(y, mo, da, time)
        case (_, _, _) => None
  }

  // ----- The printer -----

  /** `n` in decimal, zero-padded to `width` digits. */
  function Pad(n: nat, width: nat): (s: string)
    ensures |s| == width && AllDigits(s)
  {
    if width == 0 then [] else Pad(n / 10, width - 1) + [(n % 10 + '0' as int) as char]
  }

  datatype Fields = Fields(year: nat, month: nat, day: nat, hour: nat, minute: nat, second: nat)

  datatype Zone = NoZone | Zulu | Offset(negative: bool, hours: nat, minutes: nat)

  /** Fields that fit the fixed-width layout. */
  predicate Printable(f: Fields, z: Zone) {
    && f.year <= 9999 && f.month <= 99 && f.day <= 99 && f.hour <= 99 && f.minute <= 99 && f.second <= 99
    && (z.Offset? ==> z.hours <= 99 && z.minutes <= 99)
  }

  function PrintDate(f: Fields): string {
    Pad(f.year, 4) + ['-'] + (Pad(f.month, 2) + ['-'] + Pad(f.day, 2))
  }

  function PrintSeconds(second: nat, frac: string): string {
    Pad(second, 2) + (if frac == [] then [] else ['.'] + frac)
  }

  function PrintClock(f: Fields, frac: string): string {
    Pad(f.hour, 2) + [':'] + (Pad(f.minute, 2) + [':'] + PrintSeconds(f.second, frac))
  }

  function PrintZone(z: Zone): string {
    match z
    case NoZone => []
    case Zulu => ['Z']
    case Offset(negative, hours, minutes) =>
      [if negative then '-' else '+'] + (Pad(hours, 2) + [':'] + Pad(minutes, 2))
  }

  /** `YYYY-MM-DDTHH:MM:SS[.frac][Z|+HH:MM|-HH:MM]` */
  function Print(f: Fields, frac: string, z: Zone): string {
    PrintDate(f) + ['T'] + (PrintClock(f, frac) + PrintZone(z))
  }

  function OffsetSeconds(z: Zone): int {
    if z.Offset? then (if z.negative then -1 else 1) * (z.hours * 3600 + z.minutes * 60) else 0
  }

  /** Seconds since 1970-01-01T00:00:00 on the calendar's own day count. */
  function SecondsOf(f: Fields): int
    requires 1 <= f.month <= 12
  {
    DayNumber(Date(f.year, f.month, f.day)) * 86_400 + f.hour * 3600 + f.minute * 60 + f.second
  }

  function FractionNs(frac: string): nat
    requires AllDigits(frac)
  {
    if |frac| <= 9 then DigitsValue(frac) * Pow10(9 - |frac|) else DigitsValue(frac[..9])
  }

  // ----- Lemmas on strings -----

  lemma {:induction false} SplitOnceAt(a: string, c: char, b: string, p: char -> bool)
    requires Free(p, a) && p(c)
    ensures SplitOnce(a + [c] + b, p) == Some((a, b))
  {
    var s := a + [c] + b;
    if a == [] {
      assert s[1..] == b;
    } else {
      assert s[1..] == a[1..] + [c] + b;
      assert forall i :: 0 <= i < |a| - 1 ==> a[1..][i] == a[i + 1];
      SplitOnceAt(a[1..], c, b, p);
      assert [a[0]] + a[1..] == a;
    }
  }

  lemma {:induction false} SplitOnceNever(a: string, p: char -> bool)
    requires Free(p, a)
    ensures SplitOnce(a, p) == None
  {
    if a != [] {
      assert forall i :: 0 <= i < |a| - 1 ==> a[1..][i] == a[i + 1];
      SplitOnceNever(a[1..], p);
    }
  }

  lemma {:induction false} SplitNever(a: string, sep: char)
    requires sep !in a
    ensures Split(a, sep) == [a]
  {
    if a != [] {
      SplitNever(a[1..], sep);
      assert [a[0]] + a[1..] == a;
    }
  }

  lemma {:induction false} SplitAt(a: string, sep: char, b: string)
    requires sep !in a
    ensures Split(a + [sep] + b, sep) == [a] + Split(b, sep)
  {
    var s := a + [sep] + b;
    if a == [] {
      assert s[1..] == b;
    } else {
      assert s[1..] == a[1..] + [sep] + b;
      SplitAt(a[1..], sep, b);
      assert [a[0]] + a[1..] == a;
    }
  }

  /** Three parts around two separators, the last one free of them. */
  lemma SplitInThree(a: string, b: string, c: string, sep: char)
    requires sep !in a && sep !in b && sep !in c
    ensures Split(a + [sep] + (b + [sep] + c), sep) == [a, b, c]
  {
    SplitAt(a, sep, b + [sep] + c);
    SplitAt(b, sep, c);
    SplitNever(c, sep);
    assert [a] + ([b] + [c]) == [a, b, c];
  }

  lemma {:induction false} FindLastAt(a: string, c: char, b: string, p: char -> bool)
    requires p(c) && Free(p, b)
    ensures FindLast(a + [c] + b, p) == Some(|a|)
  {
    var s := a + [c] + b;
    if b != [] {
      assert s[..|s| - 1] == a + [c] + b[..|b| - 1];
      FindLastAt(a, c, b[..|b| - 1], p);
    }
  }

  lemma {:induction false} FindLastNever(a: string, p: char -> bool)
    requires Free(p, a)
    ensures FindLast(a, p) == None
  {
    if a != [] {
      FindLastNever(a[..|a| - 1], p);
    }
  }

  lemma {:induction false} PadValue(n: nat, width: nat)
    requires n < Pow10(width)
    ensures DigitsValue(Pad(n, width)) == n
  {
    if width != 0 {
      PadValue(n / 10, width - 1);
      assert Pad(n, width)[..width - 1] == Pad(n / 10, width - 1);
    }
  }

  lemma {:induction false} DigitsBound(s: string)
    requires AllDigits(s)
    ensures DigitsValue(s) < Pow10(|s|)
  {
    if s != [] {
      DigitsBound(s[..|s| - 1]);
    }
  }

  lemma {:induction false} Pow10Grows(m: nat, n: nat)
    requires m <= n
    ensures 1 <= Pow10(m) <= Pow10(n)
  {
    if m < n {
      Pow10Grows(m, n - 1);
    } else if 0 < n {
      Pow10Grows(n - 1, n - 1);
    }
  }

  lemma ParseDigits(s: string)
    requires AllDigits(s) && 1 <= |s| <= 9
    ensures ParseI64(s) == Some(DigitsValue(s))
    ensures DigitsValue(s) < 1_000_000_000
  {
    DigitsBound(s);
    Pow10Grows(|s|, 9);
    Pow10Of9();
  }

  lemma Pow10Of9()
    ensures Pow10(2) == 100 && Pow10(3) == 1000 && Pow10(4) == 10_000 && Pow10(9) == 1_000_000_000
  {
    assert Pow10(5) == 10 * Pow10(4) == 100_000;
    assert Pow10(9) == 10_000 * Pow10(5);
  }

  lemma ParsePad(n: nat, width: nat)
    requires 1 <= width <= 9 && n < Pow10(width)
    ensures ParseI64(Pad(n, width)) == Some(n)
  {
    PadValue(n, width);
    ParseDigits(Pad(n, width));
  }

  lemma TrimNothing(s: string)
    requires s != [] && !IsWhitespace(s[0]) && !IsWhitespace(s[|s| - 1])
    ensures Trim(s) == s
  {
  }

  // ----- The parts of a printed date-time read back -----

  lemma SecondsReadBack(second: nat, frac: string)
    requires second <= 99 && AllDigits(frac)
    ensures ParseSeconds(PrintSeconds(second, frac)) == Some((second, FractionNs(frac)))
  {
    var whole := Pad(second, 2);
    Pow10Of9();
    ParsePad(second, 2);
    if frac == [] {
      assert PrintSeconds(second, frac) == whole;
      SplitOnceNever(whole, IsPoint);
    } else {
      assert PrintSeconds(second, frac) == whole + ['.'] + frac;
      SplitOnceAt(whole, '.', frac, IsPoint);
      if |frac| <= 9 {
        ParseDigits(frac);
      } else {
        ParseDigits(frac[..9]);
      }
    }
  }

  lemma HoursMinutesReadBack(hours: nat, minutes: nat)
    requires hours <= 99 && minutes <= 99
    ensures Split(Pad(hours, 2) + [':'] + Pad(minutes, 2), ':') == [Pad(hours, 2), Pad(minutes, 2)]
    ensures ParseI64(Pad(hours, 2)) == Some(hours) && ParseI64(Pad(minutes, 2)) == Some(minutes)
  {
    SplitAt(Pad(hours, 2), ':', Pad(minutes, 2));
    SplitNever(Pad(minutes, 2), ':');
    Pow10Of9();
    ParsePad(hours, 2);
    ParsePad(minutes, 2);
  }

  lemma OffsetReadBack(negative: bool, hours: nat, minutes: nat)
    requires hours <= 99 && minutes <= 99
    ensures var z := Offset(negative, hours, minutes);
      ParseOffset(PrintZone(z)) == Some(OffsetSeconds(z))
  {
    var hm := Pad(hours, 2) + [':'] + Pad(minutes, 2);
    assert PrintZone(Offset(negative, hours, minutes))[1..] == hm;
    HoursMinutesReadBack(hours, minutes);
  }

  lemma OffsetFound(clock: string, negative: bool, hours: nat, minutes: nat)
    ensures var time := clock + PrintZone(Offset(negative, hours, minutes));
      && time[|time| - 1] != 'Z'
      && FindLast(time, IsSign) == Some(|clock|)
  {
    var c := if negative then '-' else '+';
    var hm := Pad(hours, 2) + [':'] + Pad(minutes, 2);
    var time := clock + [c] + hm;
    assert clock + PrintZone(Offset(negative, hours, minutes)) == time;
    assert time[|time| - 1] == hm[4] == Pad(minutes, 2)[1];
    FindLastAt(clock, c, hm, IsSign);
  }

  lemma ZoneReadBack(clock: string, z: Zone)
    requires 8 <= |clock| && Free(IsSign, clock) && IsDigit(clock[|clock| - 1])
    requires z.Offset? ==> z.hours <= 99 && z.minutes <= 99
    ensures ParseZone(clock + PrintZone(z)) == Some((clock, OffsetSeconds(z)))
  {
    match z {
      case NoZone =>
        assert clock + PrintZone(z) == clock;
        FindLastNever(clock, IsSign);
      case Zulu =>
        assert (clock + ['Z'])[..|clock|] == clock;
      case Offset(negative, hours, minutes) =>
        OffsetFound(clock, negative, hours, minutes);
        OffsetReadBack(negative, hours, minutes);
        assert (clock + PrintZone(z))[|clock|..] == PrintZone(z);
    }
  }

  lemma ClockShape(f: Fields, frac: string)
    requires AllDigits(frac)
    ensures var clock := PrintClock(f, frac);
      8 <= |clock| && Free(IsSign, clock) && IsDigit(clock[|clock| - 1])
    ensures ':' !in PrintSeconds(f.second, frac)
  {
    var sec := PrintSeconds(f.second, frac);
    assert forall i :: 0 <= i < |sec| ==> IsDigit(sec[i]) || sec[i] == '.';
    assert IsDigit(sec[|sec| - 1]);
  }

  lemma ClockParts(f: Fields, frac: string)
    requires Printable(f, NoZone) && AllDigits(frac)
    ensures Split(PrintClock(f, frac), ':') == [Pad(f.hour, 2), Pad(f.minute, 2), PrintSeconds(f.second, frac)]
    ensures ParseI64(Pad(f.hour, 2)) == Some(f.hour) && ParseI64(Pad(f.minute, 2)) == Some(f.minute)
    ensures ParseSeconds(PrintSeconds(f.second, frac)) == Some((f.second, FractionNs(frac)))
  {
    ClockShape(f, frac);
    SplitInThree(Pad(f.hour, 2), Pad(f.minute, 2), PrintSeconds(f.second, frac), ':');
    Pow10Of9();
    ParsePad(f.hour, 2);
    ParsePad(f.minute, 2);
    SecondsReadBack(f.second, frac);
  }

  /** The instant a printed date-time stands for. */
  function InstantNs(f: Fields, frac: string, z: Zone): int
    requires 1 <= f.month <= 12 && AllDigits(frac)
  {
    (SecondsOf(f) - OffsetSeconds(z)) * 1_000_000_000 + FractionNs(frac)
  }

  lemma ClockReadBack(f: Fields, frac: string, z: Zone)
    requires Printable(f, z) && AllDigits(frac)
    ensures ParseClock(f.year, f.month, f.day, PrintClock(f, frac) + PrintZone(z))
         == if InRange(f.month, f.day, f.hour, f.minute, f.second) then Some(WrapI64(InstantNs(f, frac, z))) else None
  {
    ClockShape(f, frac);
    ZoneReadBack(PrintClock(f, frac), z);
    FieldsReadBack(f, frac, z);
  }

  lemma FieldsReadBack(f: Fields, frac: string, z: Zone)
    requires Printable(f, z) && AllDigits(frac)
    ensures ParseFields(f.year, f.month, f.day, Split(PrintClock(f, frac), ':'), OffsetSeconds(z))
         == if InRange(f.month, f.day, f.hour, f.minute, f.second) then Some(WrapI64(InstantNs(f, frac, z))) else None
  {
    ClockParts(f, frac);
    if 1 <= f.month <= 12 {
      EpochIsInstant(f, frac, z);
    }
  }

  lemma EpochIsInstant(f: Fields, frac: string, z: Zone)
    requires f.year <= 9999 && 1 <= f.month <= 12 && AllDigits(frac)
    ensures EpochNs(f.year, f.month, f.day, f.hour, f.minute, f.second, OffsetSeconds(z), FractionNs(frac))
         == WrapI64(InstantNs(f, frac, z))
  {
    DaysFromCivilCounts(Date(f.year, f.month, f.day));
  }

  /** Printing and parsing, for every field value that fits the layout, every
      run of fraction digits and every zone: the parser accepts exactly the
      field ranges it checks, and what it accepts is the calendar's instant,
      shifted by the offset, with the fraction's first nine digits. */
  lemma PrintedReadsBack(f: Fields, frac: string, z: Zone)
    requires Printable(f, z) && AllDigits(frac)
    ensures ParseIso8601Ns(Print(f, frac, z))
         == if 1 <= f.month <= 12 && 1 <= f.day <= 31 && f.hour <= 23 && f.minute <= 59 && f.second <= 60
            then Some(WrapI64(InstantNs(f, frac, z)))
            else None
  {
    var text, date, time := Print(f, frac, z), PrintDate(f), PrintClock(f, frac) + PrintZone(z);
    assert text == date + ['T'] + time;
    PrintedIsTrimmed(f, frac, z);
    DateHasNoSeparator(f);
    SplitOnceAt(date, 'T', time, IsDateTimeSeparator);
    DateReadBack(f);
    ClockReadBack(f, frac, z);
  }

  /** The layout itself: `YYYY-MM-DDTHH:MM:SS`, then a point and the fraction if
      there is one, then the zone. */
  lemma PrintLayout(f: Fields, frac: string, z: Zone)
    requires Printable(f, z) && AllDigits(frac)
    ensures var text := Print(f, frac, z);
      && |text| >= 19 && text[4] == '-' && text[7] == '-' && text[10] == 'T' && text[13] == ':' && text[16] == ':'
      && ReadsAs(text[..4], f.year) && ReadsAs(text[5..7], f.month) && ReadsAs(text[8..10], f.day)
      && ReadsAs(text[11..13], f.hour) && ReadsAs(text[14..16], f.minute) && ReadsAs(text[17..19], f.second)
      && text[19..] == (if frac == [] then [] else ['.'] + frac) + PrintZone(z)
  {
    var text := Print(f, frac, z);
    var tail := (if frac == [] then [] else ['.'] + frac) + PrintZone(z);
    var y, mo, d := Pad(f.year, 4), Pad(f.month, 2), Pad(f.day, 2);
    var h, mi, s := Pad(f.hour, 2), Pad(f.minute, 2), Pad(f.second, 2);
    Flat(y, mo, d, h, mi, s, if frac == [] then [] else ['.'] + frac, PrintZone(z));
    Pow10Of9();
    PadValue(f.year, 4);
    PadValue(f.month, 2);
    PadValue(f.day, 2);
    PadValue(f.hour, 2);
    PadValue(f.minute, 2);
    PadValue(f.second, 2);
  }

  ghost predicate ReadsAs(digits: string, n: nat) {
    AllDigits(digits) && DigitsValue(digits) == n
  }

  lemma Flat(y: string, mo: string, d: string, h: string, mi: string, s: string, frac: string, zone: string)
    requires |y| == 4 && |mo| == 2 && |d| == 2 && |h| == 2 && |mi| == 2 && |s| == 2
    ensures var text := y + ['-'] + (mo + ['-'] + d) + ['T'] + ((h + [':'] + (mi + [':'] + (s + frac))) + zone);
      && |text| >= 19 && text[4] == '-' && text[7] == '-' && text[10] == 'T' && text[13] == ':' && text[16] == ':'
      && text[..4] == y && text[5..7] == mo && text[8..10] == d
      && text[11..13] == h && text[14..16] == mi && text[17..19] == s
      && text[19..] == frac + zone
  {
  }

  /** A zone is its sign, two digits, a colon and two digits, and moves the
      instant by that much: the same clock further east is earlier. */
  lemma ZoneMoves(f: Fields, frac: string, negative: bool, hours: nat, minutes: nat)
    requires 1 <= f.month <= 12 && AllDigits(frac)
    requires hours <= 99 && minutes <= 99
    ensures var z := PrintZone(Offset(negative, hours, minutes));
      && |z| == 6 && z[0] == (if negative then '-' else '+') && z[3] == ':'
      && ReadsAs(z[1..3], hours) && ReadsAs(z[4..6], minutes)
    ensures PrintZone(Zulu) == "Z" && PrintZone(NoZone) == ""
    ensures var shift := (hours * 60 + minutes) * 60_000_000_000;
      InstantNs(f, frac, Offset(negative, hours, minutes))
      == InstantNs(f, frac, Zulu) + (if negative then shift else -shift)
    ensures InstantNs(f, frac, NoZone) == InstantNs(f, frac, Zulu)
  {
    var z := PrintZone(Offset(negative, hours, minutes));
    assert z[1..3] == Pad(hours, 2) && z[4..6] == Pad(minutes, 2);
    Pow10Of9();
    PadValue(hours, 2);
    PadValue(minutes, 2);
  }

  ghost predicate AllBlank(s: string) {
    forall i :: 0 <= i < |s| ==> s[i] == ' ' || s[i] == '\t' || s[i] == '\n' || s[i] == '\r'
  }

  /** A zone may be given in hours alone. */
  lemma HoursAlone(negative: bool, hours: nat)
    requires hours <= 99
    ensures ParseOffset([if negative then '-' else '+'] + Pad(hours, 2))
         == Some((if negative then -1 else 1) * (hours * 3600))
  {
    var zone := [if negative then '-' else '+'] + Pad(hours, 2);
    assert zone[1..] == Pad(hours, 2);
    SplitNever(Pad(hours, 2), ':');
    Pow10Of9();
    ParsePad(hours, 2);
    ParseDigits("0");
    assert DigitsValue("0") == 0 by { assert "0"[..0] == []; }
  }

  /** A text without a `T` or a space inside is no date-time. */
  lemma NeedsSeparator(text: string)
    requires Free(IsDateTimeSeparator, Trim(text))
    ensures ParseIso8601Ns(text) == None
  {
    SplitOnceNever(Trim(text), IsDateTimeSeparator);
  }

  /** Whitespace around the text changes nothing. */
  lemma SpaceAround(before: string, text: string, after: string)
    requires text != [] && !IsWhitespace(text[0]) && !IsWhitespace(text[|text| - 1])
    requires AllBlank(before) && AllBlank(after)
    ensures ParseIso8601Ns(before + text + after) == ParseIso8601Ns(text)
  {
    TrimBefore(before, text + after);
    assert before + (text + after) == before + text + after;
    TrimAfter(text, after);
    TrimNothing(text);
  }

  lemma {:induction false} TrimBefore(before: string, rest: string)
    requires AllBlank(before)
    ensures Trim(before + rest) == Trim(rest)
  {
    if before == [] {
      assert before + rest == rest;
    } else {
      assert (before + rest)[1..] == before[1..] + rest;
      TrimBefore(before[1..], rest);
    }
  }

  lemma {:induction false} TrimAfter(text: string, after: string)
    requires text != [] && !IsWhitespace(text[0])
    requires AllBlank(after)
    ensures Trim(text + after) == Trim(text)
  {
    if after == [] {
      assert text + after == text;
    } else {
      var all, last := text + after, after[|after| - 1];
      assert all[|all| - 1] == last && all[..|all| - 1] == text + after[..|after| - 1];
      TrimAfter(text, after[..|after| - 1]);
    }
  }

  /** A space does for the `T`. */
  lemma SpaceForT(f: Fields, frac: string, z: Zone)
    requires Printable(f, z) && AllDigits(frac)
    ensures ParseIso8601Ns(PrintDate(f) + [' '] + (PrintClock(f, frac) + PrintZone(z)))
         == ParseIso8601Ns(Print(f, frac, z))
  {
    var date, time := PrintDate(f), PrintClock(f, frac) + PrintZone(z);
    SeparatedParse(f, date, 'T', time, frac, z);
    SeparatedParse(f, date, ' ', time, frac, z);
    assert Print(f, frac, z) == date + ['T'] + time;
  }

  lemma SeparatedTrim(f: Fields, date: string, c: char, time: string, frac: string, z: Zone)
    requires AllDigits(frac) && date == PrintDate(f) && time == PrintClock(f, frac) + PrintZone(z)
    ensures Trim(date + [c] + time) == date + [c] + time
  {
    var text := date + [c] + time;
    ClockShape(f, frac);
    assert z.Offset? ==> text[|text| - 1] == Pad(z.minutes, 2)[1];
    assert text[0] == Pad(f.year, 4)[0];
    TrimNothing(text);
  }

  lemma SeparatedParse(f: Fields, date: string, c: char, time: string, frac: string, z: Zone)
    requires Printable(f, z) && AllDigits(frac) && IsDateTimeSeparator(c)
    requires date == PrintDate(f) && time == PrintClock(f, frac) + PrintZone(z)
    ensures ParseIso8601Ns(date + [c] + time) == ParseClock(f.year, f.month, f.day, time)
  {
    SeparatedTrim(f, date, c, time, frac, z);
    DateHasNoSeparator(f);
    SplitOnceAt(date, c, time, IsDateTimeSeparator);
    DateReadBack(f);
  }

  lemma PrintedIsTrimmed(f: Fields, frac: string, z: Zone)
    requires AllDigits(frac)
    ensures Trim(Print(f, frac, z)) == Print(f, frac, z)
  {
    var text := Print(f, frac, z);
    ClockShape(f, frac);
    assert z.Offset? ==> text[|text| - 1] == Pad(z.minutes, 2)[1];
    assert text[0] == Pad(f.year, 4)[0];
    TrimNothing(text);
  }

  lemma DateHasNoSeparator(f: Fields)
    ensures Free(IsDateTimeSeparator, PrintDate(f))
  {
  }

  lemma DateReadBack(f: Fields)
    requires f.year <= 9999 && f.month <= 99 && f.day <= 99
    ensures Split(PrintDate(f), '-') == [Pad(f.year, 4), Pad(f.month, 2), Pad(f.day, 2)]
    ensures ParseI64(Pad(f.year, 4)) == Some(f.year)
    ensures ParseI64(Pad(f.month, 2)) == Some(f.month) && ParseI64(Pad(f.day, 2)) == Some(f.day)
  {
    SplitInThree(Pad(f.year, 4), Pad(f.month, 2), Pad(f.day, 2), '-');
    Pow10Of9();
    ParsePad(f.year, 4);
    ParsePad(f.month, 2);
    ParsePad(f.day, 2);
  }

  /** A fraction of up to nine digits is read exactly: `0.frac` seconds. */
  lemma FractionExact(frac: string)
    requires AllDigits(frac) && |frac| <= 9
    ensures FractionNs(frac) * Pow10(|frac|) == DigitsValue(frac) * 1_000_000_000
  {
    Pow10Adds(9 - |frac|, |frac|);
    Pow10Of9();
    assert FractionNs(frac) * Pow10(|frac|) == DigitsValue(frac) * (Pow10(9 - |frac|) * Pow10(|frac|));
  }

  lemma {:induction false} Pow10Adds(m: nat, n: nat)
    ensures Pow10(m) * Pow10(n) == Pow10(m + n)
  {
    if 0 < m {
      Pow10Adds(m - 1, n);
      assert Pow10(m) * Pow10(n) == 10 * (Pow10(m - 1) * Pow10(n));
    }
  }

  // ----- The simulator's clock -----

  const US_PER_DAY := 86_400_000_000
  /** 10000-01-01T00:00:00, one past the last instant a datetime holds. */
  const END_OF_DATETIME_US := 2_932_897 * US_PER_DAY

  /** The UTC calendar fields of an instant in microseconds since 1970. */
  function FieldsOf(us: nat): Fields
    requires us < END_OF_DATETIME_US
  {
    var d := DateOf(us / US_PER_DAY);
    CalendarSpan(us / US_PER_DAY);
    var s := us % US_PER_DAY / 1_000_000;
    Fields(d.year, d.month, d.day, s / 3600, s / 60 % 60, s % 60)
  }

  /** `srsran_now`: milliseconds, no zone. */
  function SrsranNow(us: nat): string
    requires us < END_OF_DATETIME_US
  {
    Print(FieldsOf(us), Pad(us % 1_000_000 / 1000, 3), NoZone)
  }

  lemma CalendarSpan(n: nat)
    requires n < 2_932_897
    ensures 1970 <= DateOf(n).year <= 9999
  {
    var d := DateOf(n);
    var last := Date(9999, 12, 31);
    DaysFromCivilCounts(last);
    DayNumberOrders(last, d);
    if d.year < 1970 {
      WithinYear(d);
      LaterYear(d.year, 1970);
    }
  }

  lemma FieldsAreTheInstant(us: nat)
    requires us < END_OF_DATETIME_US
    ensures var f := FieldsOf(us);
      && Printable(f, NoZone) && InRange(f.month, f.day, f.hour, f.minute, f.second)
      && ValidDate(Date(f.year, f.month, f.day))
      && SecondsOf(f) == us / 1_000_000
  {
    var day, s := us / US_PER_DAY, us % US_PER_DAY / 1_000_000;
    CalendarSpan(day);
    var d := DateOf(day);
    assert us == day * US_PER_DAY + us % US_PER_DAY;
    assert us / 1_000_000 == day * 86_400 + s;
    assert s == s / 3600 * 3600 + s / 60 % 60 * 60 + s % 60;
  }

  /** What the simulator prints, the collector reads as the same instant cut
      to the millisecond. */
  lemma SimulatorRoundTrip(us: nat)
    requires us < END_OF_DATETIME_US
    ensures ParseIso8601Ns(SrsranNow(us)) == Some(WrapI64(us / 1000 * 1_000_000))
    ensures us <= I64_MAX / 1000 ==> ParseIso8601Ns(SrsranNow(us)) == Some(us / 1000 * 1_000_000)
  {
    FieldsAreTheInstant(us);
    PrintedReadsBack(FieldsOf(us), Pad(us % 1_000_000 / 1000, 3), NoZone);
    MillisecondsExact(us);
  }

  lemma MillisecondsExact(us: nat)
    requires us < END_OF_DATETIME_US && 1 <= FieldsOf(us).month <= 12
    requires SecondsOf(FieldsOf(us)) == us / 1_000_000
    ensures InstantNs(FieldsOf(us), Pad(us % 1_000_000 / 1000, 3), NoZone) == us / 1000 * 1_000_000
  {
    var ms := us % 1_000_000 / 1000;
    Pow10Of9();
    PadValue(ms, 3);
    assert Pow10(6) == 1_000_000 by { assert Pow10(5) == 100_000; }
    assert FractionNs(Pad(ms, 3)) == ms * 1_000_000;
    assert us / 1_000_000 * 1000 + ms == us / 1000;
  }
}
