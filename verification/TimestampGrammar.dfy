// How a timestamp may be written (src/resolver/timestamp.rs, `parse`), part by part, and the
// parser as exactly that grammar with the calendar's ranges.
module TimestampGrammar {
  import opened Wrappers
  import opened Text
  import opened Timestamps

  // ----- The calendar -----

  // April, June, September and November have thirty days, February twenty-eight, or twenty-nine
  // in a year divisible by four that is no century, or one divisible by four hundred.
  lemma MonthsAreLong(year: int)
    ensures DaysInMonth(year, 1) == 31 && DaysInMonth(year, 3) == 31 && DaysInMonth(year, 5) == 31 && DaysInMonth(year, 7) == 31
    ensures DaysInMonth(year, 8) == 31 && DaysInMonth(year, 10) == 31 && DaysInMonth(year, 12) == 31
    ensures DaysInMonth(year, 4) == 30 && DaysInMonth(year, 6) == 30 && DaysInMonth(year, 9) == 30 && DaysInMonth(year, 11) == 30
    ensures DaysInMonth(year, 2) == if (year % 4 == 0 && year % 100 != 0) || year % 400 == 0 then 29 else 28
    ensures DaysInMonth(2024, 2) == 29 && DaysInMonth(2023, 2) == 28 && DaysInMonth(1900, 2) == 28 && DaysInMonth(2000, 2) == 29
  {
  }

  // ----- The parts of a timestamp -----

  datatype Parts = Parts(year: string, month: string, day: string, time: Option<Time>)

  // `gap` comes in front of the zone, `end` after it.
  datatype Time = Time(separator: string, hour: string, minute: string, second: string, fraction: Option<string>,
                       gap: string, zone: Offset, end: string)

  datatype Offset = Naive | Utc(letter: char) | Signed(sign: char, hours: string, minutes: Option<string>)

  predicate IsNumeral(s: string, min: nat, max: nat) { AllDigits(s) && min <= |s| <= max }

  predicate AreBlanks(s: string) { forall i | 0 <= i < |s| :: IsBlank(s[i]) }

  predicate IsOffset(z: Offset) {
    match z
    case Naive => true
    case Utc(letter) => letter in {'Z', 'z'}
    case Signed(sign, hours, minutes) =>
      sign in {'+', '-'} && IsNumeral(hours, 1, 2) && (minutes.Some? ==> IsNumeral(minutes.value, 2, 2))
  }

  predicate IsTime(t: Time) {
    && (t.separator in {"T", "t"} || (t.separator != "" && AreBlanks(t.separator)))
    && IsNumeral(t.hour, 1, 2) && IsNumeral(t.minute, 2, 2) && IsNumeral(t.second, 2, 2)
    && (t.fraction.Some? ==> AllDigits(t.fraction.value))
    && AreBlanks(t.gap) && IsOffset(t.zone) && AreBlanks(t.end) && (t.zone.Naive? ==> t.end == "")
  }

  // One-digit months and days go only with a time.
  predicate AreParts(p: Parts) {
    && IsNumeral(p.year, 4, 4)
    && (match p.time
        case None => IsNumeral(p.month, 2, 2) && IsNumeral(p.day, 2, 2)
        case Some(time) => IsNumeral(p.month, 1, 2) && IsNumeral(p.day, 1, 2) && IsTime(time))
  }

  function MinutesText(minutes: Option<string>): string { if minutes.Some? then [':'] + minutes.value else "" }

  function OffsetText(z: Offset): string {
    match z
    case Naive => ""
    case Utc(letter) => [letter]
    case Signed(sign, hours, minutes) => [sign] + (hours + MinutesText(minutes))
  }

  function FractionText(fraction: Option<string>): string { if fraction.Some? then ['.'] + fraction.value else "" }

  function TimeText(t: Time): string {
    t.separator + (t.hour + ([':'] + (t.minute + ([':'] + (t.second +
    (FractionText(t.fraction) + (t.gap + (OffsetText(t.zone) + t.end))))))))
  }

  function PartsText(p: Parts): string {
    p.year + (['-'] + (p.month + (['-'] + (p.day + if p.time.Some? then TimeText(p.time.value) else ""))))
  }

  // ----- What the parts mean -----

  // A fraction in millionths: its first six digits, the missing ones zeros.
  function Millionths(digits: string): int {
    if |digits| > 6 then Number(digits[..6])
    else
      Number(digits) * match |digits|
                       case 0 => 1_000_000
                       case 1 => 100_000
                       case 2 => 10_000
                       case 3 => 1_000
                       case 4 => 100
                       case 5 => 10
                       case _ => 1
  }

  function OffsetMinutes(z: Offset): Option<int> {
    match z
    case Naive => None
    case Utc(_) => Some(0)
    case Signed(sign, hours, minutes) =>
      var size := Number(hours) * 60 + if minutes.Some? then Number(minutes.value) else 0;
      Some(if sign == '-' then -size else size)
  }

  function Meant(p: Parts): Timestamp
    requires AreParts(p)
  {
    var y, m, d := Number(p.year), Number(p.month), Number(p.day);
    match p.time
    case None => Date(y, m, d)
    case Some(t) => TimeMeant(y, m, d, t)
  }

  function TimeMeant(y: nat, m: nat, d: nat, t: Time): Timestamp
    requires IsTime(t)
  {
    DateTime(y, m, d, Number(t.hour), Number(t.minute), Number(t.second), FractionMeant(t.fraction), OffsetMinutes(t.zone))
  }

  function FractionMeant(fraction: Option<string>): (n: nat)
    requires fraction.Some? ==> AllDigits(fraction.value)
  {
    if fraction.Some? then Millionths(fraction.value) else 0
  }

  lemma {:induction false} MicrosAreMillionths(digits: string)
    requires AllDigits(digits)
    ensures Micros(digits) == Millionths(digits)
    decreases 6 - |digits|
  {
    if |digits| >= 6 {
      NumberOfPrefix(digits, digits[..6], 6);
    } else {
      MicrosAreMillionths(digits + "0");
      NumberOfPrefix(digits + "0", digits, |digits|);
      assert Number(digits + "0") == 10 * Number(digits);
    }
  }

  // ----- The parser reads the parts -----

  lemma BlanksSkipped(blanks: string, rest: string)
    requires AreBlanks(blanks) && (rest == "" || !IsBlank(rest[0]))
    ensures SkipBlanks(blanks + rest) == rest
  {
    RunOfBlanks(blanks, rest, 0);
    assert (blanks + rest)[|blanks|..] == rest;
  }

  lemma {:induction false} RunOfBlanks(blanks: string, rest: string, i: nat)
    requires AreBlanks(blanks) && (rest == "" || !IsBlank(rest[0])) && i <= |blanks|
    ensures BlankRun(blanks + rest, i) == |blanks| - i
    decreases |blanks| - i
  {
    if i < |blanks| {
      RunOfBlanks(blanks, rest, i + 1);
    }
  }

  lemma OffsetRead(z: Offset, end: string)
    requires IsOffset(z) && AreBlanks(end) && (z.Naive? ==> end == "")
    ensures TakeZone(OffsetText(z) + end) == Some(Zone(OffsetMinutes(z), end))
  {
    match z
    case Naive =>
    case Utc(letter) => assert ([letter] + end)[1..] == end;
    case Signed(sign, hours, minutes) =>
      assert OffsetText(z) + end == [sign] + (hours + (MinutesText(minutes) + end));
      SignedRead(sign, hours, minutes, end);
  }

  lemma SignedRead(sign: char, hours: string, minutes: Option<string>, end: string)
    requires IsOffset(Signed(sign, hours, minutes)) && AreBlanks(end)
    ensures TakeZone([sign] + (hours + (MinutesText(minutes) + end))) ==
            Some(Zone(OffsetMinutes(Signed(sign, hours, minutes)), end))
  {
    var rest := MinutesText(minutes) + end;
    MinutesPartRead(minutes, end);
    ReadNumber(hours, rest, 1, 2);
    hide MinutesText, TakeNumber, TakeMinutes;
    assert ([sign] + (hours + rest))[1..] == hours + rest;
  }

  lemma MinutesPartRead(minutes: Option<string>, end: string)
    requires (minutes.Some? ==> IsNumeral(minutes.value, 2, 2)) && AreBlanks(end)
    ensures var rest := MinutesText(minutes) + end;
            && (rest == "" || !IsDigit(rest[0]))
            && TakeMinutes(rest).Some? && TakeMinutes(rest).value.rest == end
            && TakeMinutes(rest).value.number == if minutes.Some? then Number(minutes.value) else 0
  {
    if minutes.Some? {
      assert (MinutesText(minutes) + end)[1..] == minutes.value + end;
      ReadNumber(minutes.value, end, 2, 2);
    } else {
      assert "" + end == end;
    }
  }

  lemma FractionRead(fraction: Option<string>, tail: string)
    requires fraction.Some? ==> AllDigits(fraction.value)
    requires tail == "" || (!IsDigit(tail[0]) && tail[0] != '.')
    ensures var r := TakeFraction(FractionText(fraction) + tail);
            r.rest == tail && r.number == FractionMeant(fraction)
  {
    if fraction.Some? {
      var digits := fraction.value;
      var s := ['.'] + digits + tail;
      assert s[1..] == digits + tail;
      ReadNumber(digits, tail, 0, |s|);
      assert (digits + tail)[..|digits|] == digits && (digits + tail)[|digits|..] == tail;
      MicrosAreMillionths(digits);
      assert digits == "" ==> Number(digits) == 0;
    } else {
      assert "" + tail == tail;
    }
  }

  lemma SeparatorRead(separator: string, rest: string)
    requires separator in {"T", "t"} || (separator != "" && AreBlanks(separator))
    requires rest != "" && IsDigit(rest[0])
    ensures TakeSeparator(separator + rest) == Some(rest)
  {
    if separator in {"T", "t"} {
      assert (separator + rest)[1..] == rest;
    } else {
      BlanksSkipped(separator, rest);
    }
  }

  lemma SecondsRead(hour: nat, minute: nat, second: string, fraction: Option<string>, gap: string, zone: string)
    requires IsNumeral(second, 2, 2) && (fraction.Some? ==> AllDigits(fraction.value)) && AreBlanks(gap)
    requires zone == "" || zone[0] in {'Z', 'z', '+', '-'}
    ensures ClockSecond(hour, minute, [':'] + (second + (FractionText(fraction) + (gap + zone)))) ==
            Some(Clock(hour, minute, Number(second), FractionMeant(fraction), zone))
  {
    hide TakeFraction, TakeNumber, SkipBlanks, FractionText, FractionMeant;
    var tail := FractionText(fraction) + (gap + zone);
    GapStarts(gap, zone);
    FractionRead(fraction, gap + zone);
    BlanksSkipped(gap, zone);
    SecondRead(second, tail);
  }

  lemma SecondRead(second: string, tail: string)
    requires IsNumeral(second, 2, 2)
    ensures TakeColonNumber([':'] + (second + tail)) == Some(Read(Number(second), 2, tail))
  {
    assert ([':'] + (second + tail))[1..] == second + tail;
    ReadNumber(second, tail, 2, 2);
  }

  lemma HoursRead(separator: string, hour: string, minute: string, seconds: string)
    requires separator in {"T", "t"} || (separator != "" && AreBlanks(separator))
    requires IsNumeral(hour, 1, 2) && IsNumeral(minute, 2, 2)
    ensures TakeClock(separator + (hour + ([':'] + (minute + seconds)))) == ClockSecond(Number(hour), Number(minute), seconds)
  {
    var minutes := [':'] + (minute + seconds);
    assert minutes[1..] == minute + seconds;
    ReadNumber(minute, seconds, 2, 2);
    ReadNumber(hour, minutes, 1, 2);
    SeparatorRead(separator, hour + minutes);
    hide TakeNumber, TakeSeparator, ClockSecond;
  }

  lemma TimeRead(y: nat, m: nat, d: nat, t: Time)
    requires IsTime(t)
    ensures ShapeTime(y, m, d, TimeText(t)) == Some(TimeMeant(y, m, d, t))
  {
    var zone := OffsetText(t.zone) + t.end;
    OffsetRead(t.zone, t.end);
    OffsetStarts(t.zone, t.end);
    SecondsRead(Number(t.hour), Number(t.minute), t.second, t.fraction, t.gap, zone);
    HoursRead(t.separator, t.hour, t.minute, [':'] + (t.second + (FractionText(t.fraction) + (t.gap + zone))));
    BlanksSkipped(t.end, "");
    assert t.end + "" == t.end;
    hide TakeClock, ClockSecond, TakeZone, SkipBlanks, FractionMeant, FractionText, OffsetText, OffsetMinutes;
  }

  lemma OffsetStarts(z: Offset, end: string)
    requires IsOffset(z) && (z.Naive? ==> end == "")
    ensures var s := OffsetText(z) + end; s == "" || s[0] in {'Z', 'z', '+', '-'}
  {
  }

  lemma GapStarts(gap: string, zone: string)
    requires AreBlanks(gap) && (zone == "" || zone[0] in {'Z', 'z', '+', '-'})
    ensures var s := gap + zone; s == "" || (!IsDigit(s[0]) && s[0] != '.')
  {
  }

  // A text of such parts has their shape.
  lemma PartsAreRead(p: Parts)
    requires AreParts(p)
    ensures Shape(PartsText(p)) == Some(Meant(p))
  {
    var time := if p.time.Some? then TimeText(p.time.value) else "";
    TimeStarts(p.time);
    ReadNumberThen(p.year, '-', p.month + (['-'] + (p.day + time)), 4, 4);
    ReadNumberThen(p.month, '-', p.day + time, 1, 2);
    ReadNumber(p.day, time, 1, 2);
    if p.time.Some? {
      TimeRead(Number(p.year), Number(p.month), Number(p.day), p.time.value);
    }
    hide TimeText, ShapeTime, TakeNumberThen, TakeNumber, TimeMeant, IsTime;
  }

  lemma TimeStarts(time: Option<Time>)
    requires time.Some? ==> IsTime(time.value)
    ensures time.Some? ==> TimeText(time.value) != "" && !IsDigit(TimeText(time.value)[0])
  {
  }

  // ----- Whatever is read has such parts -----

  lemma NumberPart(s: string, min: nat, max: nat) returns (digits: string)
    requires TakeNumber(s, min, max).Some?
    ensures var r := TakeNumber(s, min, max).value;
            IsNumeral(digits, min, max) && s == digits + r.rest && r.number == Number(digits) && r.width == |digits|
  {
    var n := DigitRun(s, 0, max);
    digits := s[..n];
    NumberOfPrefix(s, digits, n);
  }

  lemma NumberThenPart(s: string, min: nat, max: nat, c: char) returns (digits: string)
    requires TakeNumberThen(s, min, max, c).Some?
    ensures var r := TakeNumberThen(s, min, max, c).value;
            IsNumeral(digits, min, max) && s == digits + ([c] + r.rest) && r.number == Number(digits) && r.width == |digits|
  {
    digits := NumberPart(s, min, max);
    var rest := TakeNumber(s, min, max).value.rest;
    assert rest == [c] + rest[1..];
  }

  lemma ColonPart(s: string) returns (digits: string)
    requires TakeColonNumber(s).Some?
    ensures var r := TakeColonNumber(s).value;
            IsNumeral(digits, 2, 2) && s == [':'] + (digits + r.rest) && r.number == Number(digits)
  {
    digits := NumberPart(s[1..], 2, 2);
  }

  lemma BlanksPart(s: string) returns (blanks: string)
    ensures AreBlanks(blanks) && s == blanks + SkipBlanks(s)
  {
    blanks := s[..BlankRun(s, 0)];
  }

  lemma MinutesPart(s: string) returns (minutes: Option<string>)
    requires TakeMinutes(s).Some?
    ensures var r := TakeMinutes(s).value;
            && (minutes.Some? ==> IsNumeral(minutes.value, 2, 2)) && s == MinutesText(minutes) + r.rest
            && r.number == if minutes.Some? then Number(minutes.value) else 0
  {
    if s != "" && s[0] == ':' {
      var digits := ColonPart(s);
      minutes := Some(digits);
    } else {
      minutes := None;
    }
  }

  lemma OffsetPart(s: string) returns (z: Offset, end: string)
    requires TakeZone(s).Some? && OnlyBlanks(TakeZone(s).value.rest)
    ensures IsOffset(z) && AreBlanks(end) && (z.Naive? ==> end == "")
    ensures s == OffsetText(z) + end && OffsetMinutes(z) == TakeZone(s).value.offset
  {
    hide TakeOffset;
    end := BlanksPart(TakeZone(s).value.rest);
    assert end == TakeZone(s).value.rest;
    if s == "" {
      z := Naive;
    } else if s[0] in {'Z', 'z'} {
      z := Utc(s[0]);
      assert s == [s[0]] + s[1..];
    } else {
      z := SignedPart(s);
    }
  }

  lemma SignedPart(s: string) returns (z: Offset)
    requires s != "" && s[0] in {'+', '-'} && TakeZone(s).Some?
    ensures IsOffset(z) && !z.Naive?
    ensures s == OffsetText(z) + TakeZone(s).value.rest && OffsetMinutes(z) == TakeZone(s).value.offset
  {
    hide TakeNumber, TakeMinutes, MinutesText;
    var hours := NumberPart(s[1..], 1, 2);
    var rest := TakeNumber(s[1..], 1, 2).value.rest;
    var minutes := MinutesPart(rest);
    z := Signed(s[0], hours, minutes);
    Regrouped(s, hours, MinutesText(minutes), TakeZone(s).value.rest);
  }

  lemma Regrouped(s: string, a: string, b: string, c: string)
    requires s != "" && s[1..] == a + (b + c)
    ensures s == ([s[0]] + (a + b)) + c
  {
    assert s == [s[0]] + s[1..];
  }

  lemma FractionPart(s: string) returns (fraction: Option<string>)
    ensures fraction.Some? ==> AllDigits(fraction.value)
    ensures s == FractionText(fraction) + TakeFraction(s).rest
    ensures TakeFraction(s).number == FractionMeant(fraction)
  {
    if s != "" && s[0] == '.' {
      var n := DigitRun(s[1..], 0, |s|);
      fraction := Some(s[1..][..n]);
      MicrosAreMillionths(s[1..][..n]);
      assert s == ['.'] + s[1..] && s[1..] == s[1..][..n] + s[1..][n..];
      assert n == 0 ==> Number(s[1..][..n]) == 0;
    } else {
      fraction := None;
    }
  }

  lemma SeparatorPart(s: string) returns (separator: string)
    requires TakeSeparator(s).Some?
    ensures separator in {"T", "t"} || (separator != "" && AreBlanks(separator))
    ensures s == separator + TakeSeparator(s).value
  {
    if s[0] == 'T' || s[0] == 't' {
      separator := [s[0]];
    } else {
      separator := BlanksPart(s);
      assert BlankRun(s, 0) > 0;
    }
  }

  lemma TimePart(y: nat, m: nat, d: nat, s: string) returns (t: Time)
    requires ShapeTime(y, m, d, s).Some?
    ensures IsTime(t) && s == TimeText(t) && ShapeTime(y, m, d, s) == Some(TimeMeant(y, m, d, t))
  {
    hide TakeFraction, TakeNumber, TakeZone, SkipBlanks, TakeSeparator, IsOffset, TakeColonNumber, OffsetMinutes;
    hide FractionMeant, FractionText, OffsetText;
    var s1 := TakeSeparator(s).value;
    var s2 := TakeNumber(s1, 1, 2).value.rest;
    var s3 := TakeColonNumber(s2).value.rest;
    var s4 := TakeColonNumber(s3).value.rest;
    var s5 := TakeFraction(s4).rest;
    var separator := SeparatorPart(s);
    var hour := NumberPart(s1, 1, 2);
    var minute := ColonPart(s2);
    var second := ColonPart(s3);
    var fraction := FractionPart(s4);
    var gap := BlanksPart(s5);
    var zone, end := OffsetPart(SkipBlanks(s5));
    t := Time(separator, hour, minute, second, fraction, gap, zone, end);
  }

  lemma PartsFound(s: string) returns (p: Parts)
    requires Shape(s).Some?
    ensures AreParts(p) && PartsText(p) == s && Meant(p) == Shape(s).value
  {
    hide TakeNumberThen, TakeNumber, ShapeTime, TimeText, IsTime, TimeMeant;
    var year := NumberThenPart(s, 4, 4, '-');
    var s1 := TakeNumberThen(s, 4, 4, '-').value;
    var month := NumberThenPart(s1.rest, 1, 2, '-');
    var s2 := TakeNumberThen(s1.rest, 1, 2, '-').value;
    var day := NumberPart(s2.rest, 1, 2);
    var s3 := TakeNumber(s2.rest, 1, 2).value;
    if s3.rest == "" {
      p := Parts(year, month, day, None);
    } else {
      var time := TimePart(s1.number, s2.number, s3.number, s3.rest);
      p := Parts(year, month, day, Some(time));
    }
  }

  ghost predicate Spells(s: string, p: Parts, t: Timestamp) { AreParts(p) && PartsText(p) == s && Meant(p) == t }

  // A text is a timestamp exactly when it spells one that is in range.
  lemma ParsedExactly(s: string, t: Timestamp)
    ensures Parsed(s) == Some(t) <==> InRange(t) && exists p :: Spells(s, p, t)
  {
    if Parsed(s) == Some(t) {
      var p := PartsFound(s);
      assert Spells(s, p, t);
    }
    if InRange(t) && exists p :: Spells(s, p, t) {
      var p :| Spells(s, p, t);
      PartsAreRead(p);
    }
  }

  // ----- Writing -----

  // What is written has the parts in full: four and two digits, a `T`, six digits of fraction
  // or none, and an offset in hours and minutes or none.
  lemma IsoIsSpelled(t: Timestamp)
    requires InRange(t)
    ensures |ToIso(t)| >= 10 && ToIso(t)[4] == '-' && ToIso(t)[7] == '-'
    ensures Number(ToIso(t)[..4]) == t.year && Number(ToIso(t)[5..7]) == t.month && Number(ToIso(t)[8..10]) == t.day
    ensures t.Date? <==> |ToIso(t)| == 10
  {
    Four(t.year);
    Two(t.month);
    Two(t.day);
    var s := ToIso(t);
    assert s[..4] == Padded(t.year, 4) && s[5..7] == Padded(t.month, 2) && s[8..10] == Padded(t.day, 2);
  }

  lemma IsoTimeIsSpelled(t: Timestamp)
    requires InRange(t) && t.DateTime?
    ensures var s := IsoTime(t);
            && ToIso(t)[10..] == s && |s| >= 9 && s[0] == 'T' && s[3] == ':' && s[6] == ':'
            && Number(s[1..3]) == t.hour && Number(s[4..6]) == t.minute && Number(s[7..9]) == t.second
            && s[9..] == IsoTail(t.microsecond, t.offset)
  {
    Four(t.year);
    Two(t.month);
    Two(t.day);
    Two(t.hour);
    Two(t.minute);
    Two(t.second);
    var s := IsoTime(t);
    var hour, minute, second := Padded(t.hour, 2), Padded(t.minute, 2), Padded(t.second, 2);
    hide Padded, IsoTail;
    assert s[1..3] == hour && s[4..6] == minute && s[7..9] == second;
    DateEnds(t, s);
  }

  lemma DateEnds(t: Timestamp, time: string)
    requires InRange(t)
    ensures IsoDate(t, time)[10..] == time
  {
    Four(t.year);
    Two(t.month);
    Two(t.day);
    hide Padded;
  }

  lemma IsoTailIsSpelled(microsecond: nat, offset: Option<int>)
    requires microsecond <= 999_999 && (offset.Some? ==> -24 * 60 < offset.value < 24 * 60)
    ensures var s, zone := IsoTail(microsecond, offset), IsoZone(offset);
            && (if microsecond == 0 then s == zone
                else |s| >= 7 && s[0] == '.' && AllDigits(s[1..7]) && Number(s[1..7]) == microsecond && s[7..] == zone)
            && (if offset.None? then zone == ""
                else
                  && |zone| == 6 && zone[3] == ':' && AllDigits(zone[1..3]) && AllDigits(zone[4..])
                  && zone[0] == (if offset.value < 0 then '-' else '+')
                  && 60 * Number(zone[1..3]) + Number(zone[4..]) == if offset.value < 0 then -offset.value else offset.value)
  {
    if microsecond > 0 {
      Six(microsecond);
      var digits := Padded(microsecond, 6);
      assert ("." + digits + IsoZone(offset))[1..7] == digits;
    }
    if offset.Some? {
      var size := if offset.value < 0 then -offset.value else offset.value;
      Two(size / 60);
      Two(size % 60);
      var zone := IsoZone(offset);
      assert zone[1..3] == Padded(size / 60, 2) && zone[4..] == Padded(size % 60, 2);
    }
  }
}
