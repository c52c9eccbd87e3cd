// Implicit timestamps (src/resolver/timestamp.rs), and the recognizer the emitter uses
// to quote a string that would read as one (`is_yaml_11_timestamp` in src/encode/mod.rs).
// Digits, separators and zones are ASCII, so characters stand for bytes here.
module Timestamps {
  import opened Wrappers
  import opened Text

  datatype Timestamp =
    | Date(year: nat, month: nat, day: nat)
    | DateTime(year: nat, month: nat, day: nat, hour: nat, minute: nat, second: nat,
               microsecond: nat, offset: Option<int>)

  predicate IsLeapYear(year: int) { year % 4 == 0 && (year % 100 != 0 || year % 400 == 0) }

  function DaysInMonth(year: int, month: nat): nat {
    if month in {1, 3, 5, 7, 8, 10, 12} then 31
    else if month in {4, 6, 9, 11} then 30
    else if month == 2 then (if IsLeapYear(year) then 29 else 28)
    else 0
  }

  predicate ValidDate(year: int, month: nat, day: nat) {
    1 <= year <= 9999 && 1 <= month <= 12 && 1 <= day <= DaysInMonth(year, month)
  }

  // A real point in the calendar, with an offset of less than a day.
  predicate InRange(t: Timestamp) {
    && ValidDate(t.year, t.month, t.day)
    && (t.DateTime? ==>
          && t.hour <= 23 && t.minute <= 59 && t.second <= 59 && t.microsecond <= 999_999
          && (t.offset.Some? ==> -24 * 60 < t.offset.value < 24 * 60))
  }

  // ----- Writing -----

  function ToIso(t: Timestamp): string {
    IsoDate(t, if t.Date? then "" else IsoTime(t))
  }

  function IsoDate(t: Timestamp, time: string): string {
    Padded(t.year, 4) + (['-'] + (Padded(t.month, 2) + (['-'] + (Padded(t.day, 2) + time))))
  }

  function IsoTime(t: Timestamp): string
    requires t.DateTime?
  {
    ['T'] + (Padded(t.hour, 2) + ([':'] + (Padded(t.minute, 2) + ([':'] + (Padded(t.second, 2)
    + IsoTail(t.microsecond, t.offset))))))
  }

  function IsoTail(microsecond: nat, offset: Option<int>): string {
    (if microsecond > 0 then "." + Padded(microsecond, 6) else "") + IsoZone(offset)
  }

  function IsoZone(offset: Option<int>): string {
    if offset == None then ""
    else if offset.value < 0 then ['-'] + IsoMinutes(-offset.value)
    else ['+'] + IsoMinutes(offset.value)
  }

  function IsoMinutes(minutes: nat): string {
    Padded(minutes / 60, 2) + ([':'] + Padded(minutes % 60, 2))
  }

  // ----- Reading: pieces of a text, each giving what follows it -----

  // A number read at the front of a text, the columns it took, and what follows.
  datatype Read = Read(number: nat, width: nat, rest: string)

  datatype Zone = Zone(offset: Option<int>, rest: string)

  // The number of digits in `s` from position `i` on, counted up to `max`.
  function DigitRun(s: string, i: nat, max: nat): (n: nat)
    requires i <= |s|
    ensures i + n <= |s| && n <= max
    ensures forall k | i <= k < i + n :: IsDigit(s[k])
    ensures n < max && i + n < |s| ==> !IsDigit(s[i + n])
    decreases max
  {
    if max == 0 || i == |s| || !IsDigit(s[i]) then 0 else 1 + DigitRun(s, i + 1, max - 1)
  }

  // At least `min` and at most `max` digits.
  function TakeNumber(s: string, min: nat, max: nat): Option<Read> {
    var n := DigitRun(s, 0, max);
    if n < min then None else Some(Read(NumberOfFirst(s, n), n, s[n..]))
  }

  // A number and the character after it.
  function TakeNumberThen(s: string, min: nat, max: nat, c: char): Option<Read> {
    var number :- TakeNumber(s, min, max);
    if number.rest != "" && number.rest[0] == c then Some(number.(rest := number.rest[1..])) else None
  }

  // A colon and a two-digit number.
  function TakeColonNumber(s: string): Option<Read> {
    if s != "" && s[0] == ':' then TakeNumber(s[1..], 2, 2) else None
  }

  function SkipBlanks(s: string): string {
    s[BlankRun(s, 0)..]
  }

  function BlankRun(s: string, i: nat): (n: nat)
    requires i <= |s|
    ensures i + n <= |s|
    ensures forall k | i <= k < i + n :: IsBlank(s[k])
    ensures i + n < |s| ==> !IsBlank(s[i + n])
    decreases |s| - i
  {
    if i == |s| || !IsBlank(s[i]) then 0 else 1 + BlankRun(s, i + 1)
  }

  // `T`/`t`, or one or more blanks.
  function TakeSeparator(s: string): Option<string> {
    if s != "" && (s[0] == 'T' || s[0] == 't') then Some(s[1..])
    else if s != "" && IsBlank(s[0]) then Some(SkipBlanks(s))
    else None
  }

  // ----- The two grammars -----

  // A fraction of a second, cut or filled up to six digits.
  function Micros(digits: string): nat
    requires AllDigits(digits)
    decreases 6 - |digits|
  {
    if |digits| >= 6 then NumberOfFirst(digits, 6) else Micros(digits + "0")
  }

  function TakeFraction(s: string): Read {
    if s == "" || s[0] != '.' then Read(0, 0, s)
    else
      var n := DigitRun(s[1..], 0, |s|);
      Read(if n == 0 then 0 else Micros(s[1..][..n]), n, s[1..][n..])
  }

  // A zone (`Z`, `z` or a signed offset) if anything is left, and what follows it.
  function TakeZone(s: string): Option<Zone> {
    if s == "" then Some(Zone(None, ""))
    else if s[0] == 'Z' || s[0] == 'z' then Some(Zone(Some(0), s[1..]))
    else if s[0] != '+' && s[0] != '-' then None
    else
      var minutes :- TakeOffset(s[1..]);
      var size: int := minutes.number;
      Some(Zone(Some(if s[0] == '+' then size else -size), minutes.rest))
  }

  // Hours and optional minutes of an offset, as minutes.
  function TakeOffset(s: string): Option<Read> {
    var hours :- TakeNumber(s, 1, 2);
    var minutes :- TakeMinutes(hours.rest);
    Some(minutes.(number := hours.number * 60 + minutes.number))
  }

  function TakeMinutes(s: string): Option<Read> {
    if s == "" || s[0] != ':' then Some(Read(0, 0, s)) else TakeColonNumber(s)
  }

  // A time of day, and the text where its zone would start.
  datatype Clock = Clock(hour: nat, minute: nat, second: nat, microsecond: nat, zone: string)

  function TakeClock(s: string): Option<Clock> {
    var s1 :- TakeSeparator(s);
    var hour :- TakeNumber(s1, 1, 2);
    ClockMinute(hour.number, hour.rest)
  }

  function ClockMinute(hour: nat, s: string): Option<Clock> {
    var minute :- TakeColonNumber(s);
    ClockSecond(hour, minute.number, minute.rest)
  }

  function ClockSecond(hour: nat, minute: nat, s: string): Option<Clock> {
    var second :- TakeColonNumber(s);
    var micros := TakeFraction(second.rest);
    Some(Clock(hour, minute, second.number, micros.number, SkipBlanks(micros.rest)))
  }

  // The shape of a timestamp and its fields, before any range is checked.
  function Shape(s: string): Option<Timestamp> {
    var year :- TakeNumberThen(s, 4, 4, '-');
    ShapeMonth(year.number, year.rest)
  }

  function ShapeMonth(y: nat, s: string): Option<Timestamp> {
    var month :- TakeNumberThen(s, 1, 2, '-');
    ShapeDay(y, month, month.rest)
  }

  // A date alone needs two-digit months and days; a time may follow any date.
  function ShapeDay(y: nat, month: Read, s: string): Option<Timestamp> {
    var day :- TakeNumber(s, 1, 2);
    if day.rest == "" then
      if month.width == 2 && day.width == 2 then Some(Date(y, month.number, day.number)) else None
    else
      ShapeTime(y, month.number, day.number, day.rest)
  }

  function ShapeTime(y: nat, m: nat, d: nat, s: string): Option<Timestamp> {
    var clock :- TakeClock(s);
    var zone :- TakeZone(clock.zone);
    if SkipBlanks(zone.rest) != "" then None
    else Some(DateTime(y, m, d, clock.hour, clock.minute, clock.second, clock.microsecond,
                       zone.offset))
  }

  // `parse`: a shape whose fields are in range.
  function Parsed(s: string): (r: Option<Timestamp>)
    ensures r.Some? ==> InRange(r.value) && Shape(s) == r
  {
    Checked(Shape(s))
  }

  function Checked(shape: Option<Timestamp>): Option<Timestamp> {
    if shape.Some? && InRange(shape.value) then shape else None
  }

  // `is_yaml_11_timestamp`: the emitter's recognizer, which keeps no field and allows
  // neither a lowercase zone nor anything after the zone.
  predicate LooksLike(s: string) {
    match TakeNumberThen(s, 4, 4, '-')
    case None => false
    case Some(year) => IsMonthDay(year.rest) || LooksLikeMonth(year.rest)
  }

  predicate IsMonthDay(s: string) {
    |s| == 5 && AllDigits(s[..2]) && s[2] == '-' && AllDigits(s[3..])
  }

  predicate LooksLikeMonth(s: string) {
    match TakeNumberThen(s, 1, 2, '-')
    case None => false
    case Some(month) => LooksLikeDay(month.rest)
  }

  predicate LooksLikeDay(s: string) {
    match TakeNumber(s, 1, 2)
    case None => false
    case Some(day) => LooksLikeTime(day.rest)
  }

  predicate LooksLikeTime(s: string) {
    match TakeClock(s)
    case None => false
    case Some(clock) => LooksLikeZone(clock.zone)
  }

  predicate LooksLikeZone(s: string) {
    if s == "" then true
    else if s[0] == 'Z' then |s| == 1
    else if s[0] != '+' && s[0] != '-' then false
    else LooksLikeOffset(s[1..])
  }

  predicate LooksLikeOffset(s: string) {
    TakeNumber(s, 1, 2).Some? && LooksLikeMinutes(TakeNumber(s, 1, 2).value.rest)
  }

  predicate LooksLikeMinutes(s: string) {
    s == "" || (TakeColonNumber(s).Some? && TakeColonNumber(s).value.rest == "")
  }

  // ----- Reading back what was written -----

  lemma ReadNumber(digits: string, rest: string, min: nat, max: nat)
    requires AllDigits(digits) && min <= |digits| <= max
    requires |digits| == max || rest == "" || !IsDigit(rest[0])
    ensures TakeNumber(digits + rest, min, max) == Some(Read(Number(digits), |digits|, rest))
  {
    var s := digits + rest;
    assert forall i | 0 <= i < |digits| :: s[i] == digits[i];
    NumberOfPrefix(s, digits, |digits|);
    assert s[|digits|..] == rest;
  }

  lemma ReadNumberThen(digits: string, c: char, rest: string, min: nat, max: nat)
    requires AllDigits(digits) && min <= |digits| <= max && !IsDigit(c)
    ensures TakeNumberThen(digits + ([c] + rest), min, max, c)
         == Some(Read(Number(digits), |digits|, rest))
  {
    ReadNumber(digits, [c] + rest, min, max);
  }

  lemma Two(n: nat)
    requires n < 100
    ensures |Padded(n, 2)| == 2 && Number(Padded(n, 2)) == n
  {
    assert Pow10(2) == 100;
    PaddedLength(n, 2);
    PaddedNumber(n, 2);
  }

  lemma Four(n: nat)
    requires n < 10_000
    ensures |Padded(n, 4)| == 4 && Number(Padded(n, 4)) == n
  {
    assert Pow10(3) == 1_000;
    PaddedLength(n, 4);
    PaddedNumber(n, 4);
  }

  lemma Six(n: nat)
    requires n < 1_000_000
    ensures |Padded(n, 6)| == 6 && Number(Padded(n, 6)) == n
  {
    assert Pow10(3) == 1_000;
    assert Pow10(5) == 100_000;
    PaddedLength(n, 6);
    PaddedNumber(n, 6);
  }

  lemma MinutesRead(minutes: string)
    requires AllDigits(minutes) && |minutes| == 2
    ensures TakeMinutes([':'] + minutes) == Some(Read(Number(minutes), 2, ""))
  {
    ReadNumber(minutes, "", 2, 2);
    assert minutes + "" == minutes;
  }

  lemma OffsetReads(hours: string, minutes: string)
    requires AllDigits(hours) && AllDigits(minutes) && |hours| == |minutes| == 2
    ensures TakeOffset(hours + ([':'] + minutes))
         == Some(Read(Number(hours) * 60 + Number(minutes), 2, ""))
  {
    MinutesRead(minutes);
    ReadNumber(hours, [':'] + minutes, 1, 2);
  }

  lemma MinutesReadBack(minutes: nat)
    requires minutes < 24 * 60
    ensures TakeOffset(IsoMinutes(minutes)) == Some(Read(minutes, 2, ""))
  {
    Two(minutes / 60);
    Two(minutes % 60);
    OffsetReads(Padded(minutes / 60, 2), Padded(minutes % 60, 2));
  }

  lemma SignedZoneReads(sign: char, minutes: string, n: nat)
    requires (sign == '+' || sign == '-') && TakeOffset(minutes) == Some(Read(n, 2, ""))
    ensures var size: int := n;
            TakeZone([sign] + minutes) == Some(Zone(Some(if sign == '+' then size else -size), ""))
  {
    assert ([sign] + minutes)[1..] == minutes;
  }

  lemma ZoneReadsBack(offset: Option<int>)
    requires offset.Some? ==> -24 * 60 < offset.value < 24 * 60
    ensures TakeZone(IsoZone(offset)) == Some(Zone(offset, ""))
    ensures IsoZone(offset) != "" ==> IsoZone(offset)[0] == '+' || IsoZone(offset)[0] == '-'
  {
    if offset.Some? {
      var size := if offset.value < 0 then -offset.value else offset.value;
      MinutesReadBack(size);
      SignedZoneReads(if offset.value < 0 then '-' else '+', IsoMinutes(size), size);
    }
  }

  lemma FractionReads(digits: string, zone: string)
    requires |digits| == 6 && AllDigits(digits) && (zone == "" || !IsDigit(zone[0]))
    ensures TakeFraction("." + digits + zone) == Read(Number(digits), 6, zone)
  {
    var s := "." + digits + zone;
    assert s[1..] == digits + zone;
    ReadNumber(digits, zone, 0, |s|);
    assert (digits + zone)[..6] == digits && (digits + zone)[6..] == zone;
    assert digits[..6] == digits;
  }

  lemma TailReadsBack(microsecond: nat, offset: Option<int>)
    requires microsecond <= 999_999
    requires offset.Some? ==> -24 * 60 < offset.value < 24 * 60
    ensures var r := TakeFraction(IsoTail(microsecond, offset));
            r.number == microsecond && r.rest == IsoZone(offset)
  {
    ZoneReadsBack(offset);
    if microsecond > 0 {
      Six(microsecond);
      FractionReads(Padded(microsecond, 6), IsoZone(offset));
    } else {
      assert IsoTail(microsecond, offset) == IsoZone(offset);
    }
  }

  lemma SecondReads(hour: nat, minute: nat, second: string, tail: string)
    requires AllDigits(second) && |second| == 2
    ensures ClockSecond(hour, minute, [':'] + (second + tail))
         == Some(Clock(hour, minute, Number(second), TakeFraction(tail).number,
                       SkipBlanks(TakeFraction(tail).rest)))
  {
    ReadNumber(second, tail, 2, 2);
  }

  lemma ClockReads(hour: string, minute: string, rest: string)
    requires AllDigits(hour) && AllDigits(minute) && |hour| == |minute| == 2
    ensures TakeClock(['T'] + (hour + ([':'] + (minute + rest))))
         == ClockSecond(Number(hour), Number(minute), rest)
  {
    ReadNumber(hour, [':'] + (minute + rest), 1, 2);
    ReadNumber(minute, rest, 2, 2);
  }

  lemma DateReads(year: string, month: string, day: string, time: string)
    requires AllDigits(year) && AllDigits(month) && AllDigits(day)
    requires |year| == 4 && |month| == |day| == 2
    ensures Shape(year + (['-'] + (month + (['-'] + (day + time)))))
         == if time == "" then Some(Date(Number(year), Number(month), Number(day)))
            else ShapeTime(Number(year), Number(month), Number(day), time)
  {
    ReadNumberThen(year, '-', month + (['-'] + (day + time)), 4, 4);
    ReadNumberThen(month, '-', day + time, 1, 2);
    ReadNumber(day, time, 1, 2);
  }

  lemma WholeClockReads(hour: string, minute: string, second: string, tail: string)
    requires AllDigits(hour) && AllDigits(minute) && AllDigits(second) && |hour| == |minute| == |second| == 2
    ensures TakeClock(['T'] + (hour + ([':'] + (minute + ([':'] + (second + tail))))))
         == Some(Clock(Number(hour), Number(minute), Number(second), TakeFraction(tail).number,
                       SkipBlanks(TakeFraction(tail).rest)))
  {
    ClockReads(hour, minute, [':'] + (second + tail));
    SecondReads(Number(hour), Number(minute), second, tail);
  }

  lemma NoBlanksInZone(offset: Option<int>)
    ensures SkipBlanks(IsoZone(offset)) == IsoZone(offset)
  {
    var zone := IsoZone(offset);
    assert BlankRun(zone, 0) == 0;
    assert zone[0..] == zone;
  }

  lemma ClockReadsBack(t: Timestamp)
    requires t.DateTime? && InRange(t)
    ensures TakeClock(IsoTime(t))
         == Some(Clock(t.hour, t.minute, t.second, t.microsecond, IsoZone(t.offset)))
  {
    Two(t.hour);
    Two(t.minute);
    Two(t.second);
    var tail := IsoTail(t.microsecond, t.offset);
    WholeClockReads(Padded(t.hour, 2), Padded(t.minute, 2), Padded(t.second, 2), tail);
    TailReadsBack(t.microsecond, t.offset);
    NoBlanksInZone(t.offset);
  }

  lemma TimeReadsBack(t: Timestamp)
    requires t.DateTime? && InRange(t)
    ensures ShapeTime(t.year, t.month, t.day, IsoTime(t)) == Some(t)
  {
    ClockReadsBack(t);
    ZoneReadsBack(t.offset);
    assert SkipBlanks("") == "";
  }

  // Whatever the calendar allows survives being written and read again; so two different
  // timestamps never share a text.
  lemma IsoReadsBack(t: Timestamp)
    requires InRange(t)
    ensures Parsed(ToIso(t)) == Some(t)
  {
    Four(t.year);
    Two(t.month);
    Two(t.day);
    DateReads(Padded(t.year, 4), Padded(t.month, 2), Padded(t.day, 2),
              if t.Date? then "" else IsoTime(t));
    if t.DateTime? {
      TimeReadsBack(t);
    }
  }

  // Whatever is accepted is a moment that the calendar allows, and survives rewriting.
  lemma AcceptedReadsBack(s: string)
    requires Parsed(s).Some?
    ensures InRange(Parsed(s).value)
    ensures Parsed(ToIso(Parsed(s).value)) == Parsed(s)
  {
    IsoReadsBack(Parsed(s).value);
  }

  // ----- The two grammars agree, but for the end of the zone -----

  function Last(s: string): char { if s == "" then ' ' else s[|s| - 1] }

  // What a clock leaves for the zone: the text's own end, or nothing after a digit, a
  // point or a blank.
  predicate EndsLike(s: string, rest: string) {
    if rest == "" then IsDigit(Last(s)) || Last(s) == '.' || IsBlank(Last(s)) else Last(rest) == Last(s)
  }

  lemma NumberEnds(s: string, min: nat, max: nat)
    requires min > 0 && TakeNumber(s, min, max).Some?
    ensures s != "" && EndsLike(s, TakeNumber(s, min, max).value.rest)
    ensures TakeNumber(s, min, max).value.rest == "" ==> IsDigit(Last(s))
  {
  }

  lemma NumberThenEnds(s: string, min: nat, max: nat, c: char)
    requires min > 0 && TakeNumberThen(s, min, max, c).Some?
    ensures var rest := TakeNumberThen(s, min, max, c).value.rest; rest != "" ==> Last(rest) == Last(s)
  {
    NumberEnds(s, min, max);
  }

  lemma TailEnds(s: string)
    ensures s != "" ==> EndsLike(s, SkipBlanks(TakeFraction(s).rest))
    ensures s == "" ==> SkipBlanks(TakeFraction(s).rest) == ""
  {
    if s != "" && s[0] == '.' {
      var n := DigitRun(s[1..], 0, |s|);
      assert TakeFraction(s).rest == "" ==> n + 1 == |s|;
    }
    var rest := TakeFraction(s).rest;
    assert s != "" ==> EndsLike(s, rest);
    var n := BlankRun(rest, 0);
    assert rest != "" && n == |rest| ==> IsBlank(Last(rest));
  }

  lemma SecondEnds(hour: nat, minute: nat, s: string)
    requires ClockSecond(hour, minute, s).Some?
    ensures EndsLike(s, ClockSecond(hour, minute, s).value.zone) && s != ""
  {
    NumberEnds(s[1..], 2, 2);
    TailEnds(TakeColonNumber(s).value.rest);
  }

  lemma MinuteEnds(hour: nat, s: string)
    requires ClockMinute(hour, s).Some?
    ensures EndsLike(s, ClockMinute(hour, s).value.zone) && s != ""
  {
    var minute := TakeColonNumber(s).value;
    NumberEnds(s[1..], 2, 2);
    SecondEnds(hour, minute.number, minute.rest);
  }

  lemma SeparatorEnds(s: string)
    requires TakeSeparator(s).Some? && TakeSeparator(s).value != ""
    ensures Last(TakeSeparator(s).value) == Last(s)
  {
  }

  lemma EndsThrough(s: string, next: string, rest: string, zone: string)
    requires s != "" && next != "" && Last(next) == Last(s)
    requires EndsLike(next, rest) && rest != "" && EndsLike(rest, zone)
    ensures EndsLike(s, zone)
  {
  }

  lemma ClockEnds(s: string)
    requires TakeClock(s).Some?
    ensures EndsLike(s, TakeClock(s).value.zone) && s != ""
  {
    var next := TakeSeparator(s).value;
    var hour := TakeNumber(next, 1, 2).value;
    NumberEnds(next, 1, 2);
    MinuteEnds(hour.number, hour.rest);
    SeparatorEnds(s);
    EndsThrough(s, next, hour.rest, TakeClock(s).value.zone);
  }

  lemma ZonesAgree(s: string)
    requires s != "" ==> !IsBlank(s[0])
    ensures LooksLikeZone(s) <==>
              && TakeZone(s).Some? && OnlyBlanks(TakeZone(s).value.rest)
              && (s != "" ==> Last(s) != 'z' && !IsBlank(Last(s)))
    ensures TakeZone(s).Some? ==> (TakeZone(s).value.offset == None <==> s == "")
  {
    if s != "" && (s[0] == '+' || s[0] == '-') {
      SignedZonesAgree(s[1..]);
    } else if s != "" && (s[0] == 'Z' || s[0] == 'z') {
      BlanksEnd(s[1..]);
    }
  }

  // Whether nothing but blanks is left.
  predicate OnlyBlanks(s: string) { SkipBlanks(s) == "" }

  lemma SignedZonesAgree(s: string)
    ensures LooksLikeOffset(s) <==>
              && TakeOffset(s).Some? && OnlyBlanks(TakeOffset(s).value.rest)
              && Last(s) != 'z' && !IsBlank(Last(s))
  {
    if TakeNumber(s, 1, 2).Some? {
      var rest := TakeNumber(s, 1, 2).value.rest;
      NumberEnds(s, 1, 2);
      if rest == "" {
        assert OnlyBlanks("");
      } else {
        MinutesEnd(rest);
      }
    }
  }

  lemma MinutesEnd(s: string)
    requires s != ""
    ensures LooksLikeMinutes(s) <==>
              && TakeMinutes(s).Some? && OnlyBlanks(TakeMinutes(s).value.rest)
              && Last(s) != 'z' && !IsBlank(Last(s))
  {
    if s[0] == ':' {
      if TakeMinutes(s).Some? {
        NumberEnds(s[1..], 2, 2);
        BlanksEnd(TakeMinutes(s).value.rest);
      }
    } else {
      BlanksEnd(s);
    }
  }

  lemma BlanksEnd(s: string)
    ensures OnlyBlanks(s) && s != "" ==> IsBlank(Last(s))
  {
    assert OnlyBlanks(s) ==> BlankRun(s, 0) == |s|;
  }

  // The recognizer accepts exactly the texts with a timestamp's shape, except that it
  // misses a lowercase `z` and blanks after a zone.
  lemma RecognizedExactly(s: string)
    ensures LooksLike(s) <==> Shape(s).Some? && EndsOnTime(s, Shape(s).value)
  {
    if TakeNumberThen(s, 4, 4, '-').Some? {
      var year := TakeNumberThen(s, 4, 4, '-').value;
      NumberThenEnds(s, 4, 4, '-');
      MonthsAgree(year.number, year.rest);
    }
  }

  // ----- The characters of a text with a timestamp's shape -----

  predicate IsStampCharacter(c: char) {
    IsDigit(c) || c in {'-', '+', ':', '.', 'T', 't', 'Z', 'z', ' ', '\t'}
  }

  // One of those, and a colon only before a digit.
  predicate IsStampAt(s: string, i: nat)
    requires i < |s|
  {
    IsStampCharacter(s[i]) && (s[i] == ':' ==> i + 1 < |s| && IsDigit(s[i + 1]))
  }

  predicate IsStampText(s: string) { forall i: nat | i < |s| :: IsStampAt(s, i) }

  lemma LongerStamp(s: string, n: nat)
    requires n <= |s| && IsStampText(s[n..])
    requires forall i: nat | i < n :: IsStampAt(s, i)
    ensures IsStampText(s)
    ensures ':' in s[n..] ==> ':' in s
  {
    forall i: nat | n <= i < |s| ensures IsStampAt(s, i) {
      assert IsStampAt(s[n..], i - n);
    }
  }

  lemma NumberStamp(s: string, min: nat, max: nat)
    requires TakeNumber(s, min, max).Some? && IsStampText(TakeNumber(s, min, max).value.rest)
    ensures IsStampText(s) && (':' in TakeNumber(s, min, max).value.rest ==> ':' in s)
  {
    LongerStamp(s, DigitRun(s, 0, max));
  }

  lemma DashStamp(s: string, min: nat, max: nat)
    requires TakeNumberThen(s, min, max, '-').Some? && IsStampText(TakeNumberThen(s, min, max, '-').value.rest)
    ensures IsStampText(s) && (':' in TakeNumberThen(s, min, max, '-').value.rest ==> ':' in s)
  {
    var rest := TakeNumber(s, min, max).value.rest;
    LongerStamp(rest, 1);
    NumberStamp(s, min, max);
  }

  lemma ColonStamp(s: string)
    requires TakeColonNumber(s).Some? && IsStampText(TakeColonNumber(s).value.rest)
    ensures IsStampText(s) && ':' in s
  {
    NumberStamp(s[1..], 2, 2);
    assert s[1] == s[1..][0];
    LongerStamp(s, 1);
    assert s[0] == ':';
  }

  lemma BlanksStamp(s: string)
    requires IsStampText(SkipBlanks(s))
    ensures IsStampText(s) && (':' in SkipBlanks(s) ==> ':' in s)
  {
    LongerStamp(s, BlankRun(s, 0));
  }

  lemma FractionStamp(s: string)
    requires IsStampText(TakeFraction(s).rest)
    ensures IsStampText(s)
  {
    if s != "" && s[0] == '.' {
      LongerStamp(s[1..], DigitRun(s[1..], 0, |s|));
      LongerStamp(s, 1);
    }
  }

  lemma OffsetStamp(s: string)
    requires TakeOffset(s).Some? && IsStampText(TakeOffset(s).value.rest)
    ensures IsStampText(s)
  {
    hide IsStampText, TakeNumber, TakeColonNumber;
    var minutes := TakeNumber(s, 1, 2).value.rest;
    if minutes != "" && minutes[0] == ':' {
      ColonStamp(minutes);
    }
    NumberStamp(s, 1, 2);
  }

  lemma ZoneStamp(s: string)
    requires TakeZone(s).Some? && OnlyBlanks(TakeZone(s).value.rest)
    ensures IsStampText(s)
  {
    hide TakeOffset, SkipBlanks;
    BlanksStamp(TakeZone(s).value.rest);
    if s != "" {
      if s[0] == '+' || s[0] == '-' {
        OffsetStamp(s[1..]);
      }
      LongerStamp(s, 1);
    }
  }

  lemma SeparatorStamp(s: string)
    requires TakeSeparator(s).Some? && IsStampText(TakeSeparator(s).value) && ':' in TakeSeparator(s).value
    ensures IsStampText(s) && ':' in s
  {
    hide SkipBlanks;
    if s[0] == 'T' || s[0] == 't' {
      LongerStamp(s, 1);
    } else {
      BlanksStamp(s);
    }
  }

  lemma ClockStamp(s: string)
    requires TakeClock(s).Some? && IsStampText(TakeClock(s).value.zone)
    ensures IsStampText(s) && ':' in s
  {
    hide IsStampText, TakeNumber, TakeColonNumber, TakeFraction, SkipBlanks, TakeSeparator;
    var s1 := TakeSeparator(s).value;
    var minutes := TakeNumber(s1, 1, 2).value.rest;
    var seconds := TakeColonNumber(minutes).value.rest;
    var tail := TakeColonNumber(seconds).value.rest;
    BlanksStamp(TakeFraction(tail).rest);
    FractionStamp(tail);
    ColonStamp(seconds);
    ColonStamp(minutes);
    NumberStamp(s1, 1, 2);
    SeparatorStamp(s);
  }

  lemma TimeOfDayStamp(y: nat, m: nat, d: nat, s: string)
    requires ShapeTime(y, m, d, s).Some?
    ensures IsStampText(s) && ':' in s && ShapeTime(y, m, d, s).value.DateTime?
  {
    hide IsStampText, TakeClock, TakeZone;
    ZoneStamp(TakeClock(s).value.zone);
    ClockStamp(s);
  }

  lemma DayStamp(y: nat, month: Read, s: string)
    requires ShapeDay(y, month, s).Some?
    ensures IsStampText(s) && s != ""
    ensures if ShapeDay(y, month, s).value.DateTime? then ':' in s else IsDigit(Last(s))
  {
    hide ShapeTime, TakeNumber;
    var day := TakeNumber(s, 1, 2).value;
    NumberEnds(s, 1, 2);
    if day.rest != "" {
      TimeOfDayStamp(y, month.number, day.number, day.rest);
    }
    NumberStamp(s, 1, 2);
  }

  lemma MonthStamp(y: nat, s: string)
    requires ShapeMonth(y, s).Some?
    ensures IsStampText(s) && s != ""
    ensures if ShapeMonth(y, s).value.DateTime? then ':' in s else IsDigit(Last(s))
  {
    hide ShapeDay, TakeNumberThen, IsStampText;
    var month := TakeNumberThen(s, 1, 2, '-').value;
    DayStamp(y, month, month.rest);
    DashStamp(s, 1, 2);
    NumberThenEnds(s, 1, 2, '-');
    assert Last("") == ' ';
  }

  // Such a text starts with four digits and a dash. Only a time of day has a colon, and
  // only with one can the text end in a zone.
  lemma ShapeIsStampText(s: string)
    requires Shape(s).Some?
    ensures IsStampText(s) && |s| > 4 && AllDigits(s[..4]) && s[4] == '-'
    ensures Shape(s).value.DateTime? ==> ':' in s
    ensures Shape(s).value.Date? ==> IsDigit(Last(s))
  {
    var year := TakeNumberThen(s, 4, 4, '-').value;
    assert |s| > 4 && AllDigits(s[..4]) && s[4] == '-' && year.rest == s[5..];
    hide TakeNumberThen, ShapeMonth, IsStampText;
    MonthStamp(year.number, year.rest);
    DashStamp(s, 4, 4);
    NumberThenEnds(s, 4, 4, '-');
  }

  // What the recognizer asks of the end of a text that has the shape of `t`.
  predicate EndsOnTime(s: string, t: Timestamp) {
    Last(s) != 'z' && (t.DateTime? && t.offset.Some? ==> !IsBlank(Last(s)))
  }

  // The start of a day's first second, up to the zone.
  function Midnight(year: string, day: string, zero: string, zone: string): string {
    year + (['-'] + (day + (['-'] + (day + MidnightTime(zero, zone)))))
  }

  function MidnightTime(zero: string, zone: string): string {
    ['T'] + (zero + ([':'] + (zero + ([':'] + (zero + zone)))))
  }

  lemma SomeNumbers()
    ensures Number("2001") == 2001 && Number("01") == 1 && Number("00") == 0
  {
    assert NumberOfFirst("2001", 1) == 2 && NumberOfFirst("2001", 2) == 20;
    assert NumberOfFirst("2001", 3) == 200 && NumberOfFirst("2001", 4) == 2001;
    assert NumberOfFirst("01", 1) == 0 && NumberOfFirst("01", 2) == 1;
    assert NumberOfFirst("00", 1) == 0 && NumberOfFirst("00", 2) == 0;
  }

  lemma LateZone(tail: string)
    requires tail in {"z", "Z "}
    ensures TakeFraction(tail) == Read(0, 0, tail) && SkipBlanks(tail) == tail
    ensures TakeZone(tail).Some? && TakeZone(tail).value.offset == Some(0) && OnlyBlanks(TakeZone(tail).value.rest)
  {
    assert BlankRun(tail, 0) == 0 && tail[0..] == tail;
    if tail == "Z " {
      assert tail[1..] == " " && BlankRun(" ", 1) == 0 && BlankRun(" ", 0) == 1;
    }
  }

  lemma MidnightTimeReads(y: nat, m: nat, d: nat, zero: string, zone: string)
    requires AllDigits(zero) && |zero| == 2 && Number(zero) == 0 && zone in {"z", "Z "}
    ensures ShapeTime(y, m, d, MidnightTime(zero, zone)) == Some(DateTime(y, m, d, 0, 0, 0, 0, Some(0)))
  {
    LateZone(zone);
    WholeClockReads(zero, zero, zero, zone);
  }

  lemma MidnightReads(year: string, day: string, zero: string, zone: string)
    requires AllDigits(year) && |year| == 4 && AllDigits(day) && |day| == 2
    requires AllDigits(zero) && |zero| == 2 && Number(zero) == 0 && zone in {"z", "Z "}
    ensures Shape(Midnight(year, day, zero, zone)) ==
            Some(DateTime(Number(year), Number(day), Number(day), 0, 0, 0, 0, Some(0)))
  {
    DateReads(year, day, day, MidnightTime(zero, zone));
    MidnightTimeReads(Number(year), Number(day), Number(day), zero, zone);
  }

  lemma LastOfMidnight(year: string, day: string, zero: string, zone: string)
    requires zone != ""
    ensures Last(Midnight(year, day, zero, zone)) == Last(zone)
  {
  }

  lemma MidnightIsMissed(s: string, year: string, day: string, zero: string, zone: string)
    requires AllDigits(year) && |year| == 4 && AllDigits(day) && |day| == 2
    requires AllDigits(zero) && |zero| == 2 && Number(zero) == 0 && zone in {"z", "Z "}
    requires Number(year) == 2001 && Number(day) == 1 && s == Midnight(year, day, zero, zone)
    ensures Parsed(s) == Some(DateTime(2001, 1, 1, 0, 0, 0, 0, Some(0))) && !LooksLike(s)
  {
    hide Shape, LooksLike;
    MidnightReads(year, day, zero, zone);
    LastOfMidnight(year, day, zero, zone);
    MissedAtEnd(s, DateTime(2001, 1, 1, 0, 0, 0, 0, Some(0)));
  }

  lemma MissedAtEnd(s: string, t: Timestamp)
    requires Shape(s) == Some(t) && InRange(t) && !EndsOnTime(s, t)
    ensures Parsed(s) == Some(t) && !LooksLike(s)
  {
    RecognizedExactly(s);
  }

  // Both exceptions are real: `parse` accepts these two texts, and the recognizer neither.
  lemma RecognizerMisses(s: string)
    requires s == "2001-01-01T00:00:00z" || s == "2001-01-01T00:00:00Z "
    ensures Parsed(s) == Some(DateTime(2001, 1, 1, 0, 0, 0, 0, Some(0))) && !LooksLike(s)
  {
    SomeNumbers();
    var zone := s[19..];
    assert s == Midnight("2001", "01", "00", zone);
    MidnightIsMissed(s, "2001", "01", "00", zone);
  }

  // A time's shape is its clock's and its zone's.
  lemma TimeOfParts(y: nat, m: nat, d: nat, s: string)
    ensures TakeClock(s).None? ==> ShapeTime(y, m, d, s).None? && !LooksLikeTime(s)
    ensures TakeClock(s).Some? ==>
              var zone := TakeClock(s).value.zone;
              && LooksLikeTime(s) == LooksLikeZone(zone)
              && (ShapeTime(y, m, d, s).Some? <==> TakeZone(zone).Some? && OnlyBlanks(TakeZone(zone).value.rest))
              && (ShapeTime(y, m, d, s).Some? ==>
                    (EndsOnTime(s, ShapeTime(y, m, d, s).value) <==>
                       Last(s) != 'z' && (TakeZone(zone).value.offset.Some? ==> !IsBlank(Last(s)))))
  {
  }

  predicate TimeAgrees(y: nat, m: nat, d: nat, s: string) {
    LooksLikeTime(s) <==> ShapeTime(y, m, d, s).Some? && EndsOnTime(s, ShapeTime(y, m, d, s).value)
  }

  lemma ZonedTimeAgrees(y: nat, m: nat, d: nat, s: string)
    requires TakeClock(s).Some? && TakeClock(s).value.zone != ""
    ensures TimeAgrees(y, m, d, s)
  {
    TimeOfParts(y, m, d, s);
    ClockEnds(s);
    ZonesAgree(TakeClock(s).value.zone);
  }

  lemma UnzonedTimeAgrees(y: nat, m: nat, d: nat, s: string)
    requires TakeClock(s).Some? && TakeClock(s).value.zone == ""
    ensures TimeAgrees(y, m, d, s)
  {
    TimeOfParts(y, m, d, s);
    ClockEnds(s);
    NoZoneOnTime(s);
  }

  lemma TimesAgree(y: nat, m: nat, d: nat, s: string)
    ensures TimeAgrees(y, m, d, s)
  {
    if TakeClock(s).None? {
      TimeOfParts(y, m, d, s);
    } else if TakeClock(s).value.zone == "" {
      UnzonedTimeAgrees(y, m, d, s);
    } else {
      ZonedTimeAgrees(y, m, d, s);
    }
  }

  lemma NoZoneOnTime(s: string)
    requires EndsLike(s, "")
    ensures LooksLikeZone("") && TakeZone("") == Some(Zone(None, "")) && OnlyBlanks("") && Last(s) != 'z'
  {
  }

  // A day that ends the text has no time; a bare date counts when it has its columns.
  lemma NoClock()
    ensures TakeClock("") == None
  {
  }

  lemma DaysAgree(y: nat, month: Read, s: string)
    ensures LooksLikeDay(s) <==>
              && ShapeDay(y, month, s).Some? && ShapeDay(y, month, s).value.DateTime?
              && EndsOnTime(s, ShapeDay(y, month, s).value)
    ensures ShapeDay(y, month, s).Some? ==> s != ""
    ensures ShapeDay(y, month, s).Some? && ShapeDay(y, month, s).value.Date? ==> IsDigit(Last(s))
  {
    hide TakeClock;
    if TakeNumber(s, 1, 2).Some? {
      var day := TakeNumber(s, 1, 2).value;
      NumberEnds(s, 1, 2);
      NoClock();
      if day.rest != "" {
        TimesAgree(y, month.number, day.number, day.rest);
      }
    }
  }

  lemma TwoDigitRun(s: string)
    requires |s| >= 2 && IsDigit(s[0]) && IsDigit(s[1])
    ensures DigitRun(s, 0, 2) == 2
  {
    assert DigitRun(s, 1, 1) == 1;
  }

  lemma BareDateShapes(y: nat, s: string)
    requires IsMonthDay(s)
    ensures ShapeMonth(y, s).Some? && ShapeMonth(y, s).value.Date?
  {
    assert s[..2][0] == s[0] && s[..2][1] == s[1] && s[3..][0] == s[3] && s[3..][1] == s[4];
    TwoDigitRun(s);
    var rest := s[2..][1..];
    assert rest[0] == s[3] && rest[1] == s[4];
    TwoDigitRun(rest);
  }

  lemma BareShapeIsDate(y: nat, s: string)
    requires ShapeMonth(y, s).Some? && ShapeMonth(y, s).value.Date?
    ensures IsMonthDay(s)
  {
    hide TakeClock, TakeZone;
    var month := TakeNumberThen(s, 1, 2, '-').value;
    assert month.width == 2 && month.rest == s[2..][1..] && s[2] == '-';
    assert TakeNumber(month.rest, 1, 2).value.width == 2 && |month.rest| == 2;
    assert s[3..] == month.rest;
  }

  lemma BareDatesAgree(y: nat, s: string)
    ensures IsMonthDay(s) <==> ShapeMonth(y, s).Some? && ShapeMonth(y, s).value.Date?
  {
    if IsMonthDay(s) {
      BareDateShapes(y, s);
    }
    if ShapeMonth(y, s).Some? && ShapeMonth(y, s).value.Date? {
      BareShapeIsDate(y, s);
    }
  }

  lemma MonthsAgree(y: nat, s: string)
    ensures IsMonthDay(s) || LooksLikeMonth(s) <==>
              ShapeMonth(y, s).Some? && EndsOnTime(s, ShapeMonth(y, s).value)
    ensures ShapeMonth(y, s).Some? ==> s != ""
  {
    BareDatesAgree(y, s);
    if TakeNumberThen(s, 1, 2, '-').Some? {
      var month := TakeNumberThen(s, 1, 2, '-').value;
      NumberThenEnds(s, 1, 2, '-');
      DaysAgree(y, month, month.rest);
    }
  }

  // ----- The parser: a cursor that moves over the text -----

  class Cursor {
    const text: string
    var pos: nat

    constructor (text: string)
      ensures this.text == text && pos == 0
    {
      this.text := text;
      pos := 0;
    }

    ghost predicate Valid()
      reads this
    {
      pos <= |text|
    }

    // What is still to be read.
    ghost function Left(): string
      requires Valid()
      reads this
    {
      text[pos..]
    }

    predicate Done()
      requires Valid()
      reads this
    {
      pos == |text|
    }

    function Peek(): (c: Option<char>)
      requires Valid()
      reads this
      ensures c.Some? <==> Left() != ""
      ensures c.Some? ==> c.value == Left()[0]
    {
      if pos < |text| then Some(text[pos]) else None
    }

    method Skip()
      requires Valid() && pos < |text|
      modifies this
      ensures Valid() && Left() == old(Left())[1..]
    {
      pos := pos + 1;
    }

    // Consumes the exact character, or nothing.
    method Expect(c: char) returns (ok: bool)
      requires Valid()
      modifies this
      ensures Valid()
      ensures ok == (old(Left()) != "" && old(Left())[0] == c)
      ensures Left() == if ok then old(Left())[1..] else old(Left())
    {
      ok := Peek() == Some(c);
      if ok {
        pos := pos + 1;
      }
    }

    // Consumes up to `max` digits; too few are an error, but they stay consumed.
    method Digits(min: nat, max: nat) returns (r: Option<string>)
      requires Valid()
      modifies this
      ensures Valid()
      ensures var n := DigitRun(old(Left()), 0, max);
              r == (if n < min then None else Some(old(Left())[..n])) && Left() == old(Left())[n..]
    {
      var start := pos;
      ghost var left := Left();
      while pos - start < max && pos < |text| && IsDigit(text[pos])
        invariant start <= pos <= |text| && pos - start <= max
        invariant DigitRun(left, 0, max) == pos - start + DigitRun(left, pos - start, max - (pos - start))
      {
        assert left[pos - start] == text[pos];
        pos := pos + 1;
      }
      if pos - start < min {
        return None;
      }
      assert text[start..pos] == left[..pos - start];
      return Some(text[start..pos]);
    }

    method Spaces()
      requires Valid()
      modifies this
      ensures Valid() && Left() == SkipBlanks(old(Left()))
    {
      ghost var start, left := pos, Left();
      while pos < |text| && IsBlank(text[pos])
        invariant start <= pos <= |text|
        invariant BlankRun(left, 0) == pos - start + BlankRun(left, pos - start)
      {
        assert left[pos - start] == text[pos];
        pos := pos + 1;
      }
    }

    method TimeSeparator() returns (ok: bool)
      requires Valid()
      modifies this
      ensures Valid()
      ensures ok == TakeSeparator(old(Left())).Some?
      ensures ok ==> Left() == TakeSeparator(old(Left())).value
    {
      var c := Peek();
      if c == Some('T') || c == Some('t') {
        Skip();
        return true;
      }
      if c == Some(' ') || c == Some('\t') {
        Spaces();
        return true;
      }
      return false;
    }

    // Digits read as a number.
    method ReadDigits(min: nat, max: nat) returns (r: Option<Read>)
      requires Valid()
      modifies this
      ensures Valid()
      ensures r == TakeNumber(old(Left()), min, max)
      ensures r.Some? ==> Left() == r.value.rest
    {
      ghost var left := Left();
      var digits := Digits(min, max);
      if digits == None {
        return None;
      }
      NumberOfPrefix(left, digits.value, |digits.value|);
      return Some(Read(Number(digits.value), |digits.value|, text[pos..]));
    }

    method ReadDigitsThen(min: nat, max: nat, c: char) returns (r: Option<Read>)
      requires Valid()
      modifies this
      ensures Valid()
      ensures r == TakeNumberThen(old(Left()), min, max, c)
      ensures r.Some? ==> Left() == r.value.rest
    {
      r := ReadDigits(min, max);
      if r == None {
        return None;
      }
      var ok := Expect(c);
      if !ok {
        return None;
      }
      return Some(r.value.(rest := text[pos..]));
    }

    method ReadColonDigits() returns (r: Option<Read>)
      requires Valid()
      modifies this
      ensures Valid()
      ensures r == TakeColonNumber(old(Left()))
      ensures r.Some? ==> Left() == r.value.rest
    {
      var ok := Expect(':');
      if !ok {
        return None;
      }
      r := ReadDigits(2, 2);
    }

    // A fraction, cut or filled up to microseconds.
    method Fraction() returns (microsecond: nat)
      requires Valid()
      modifies this
      ensures Valid()
      ensures microsecond == TakeFraction(old(Left())).number
      ensures Left() == TakeFraction(old(Left())).rest
    {
      microsecond := 0;
      if Peek() == Some('.') {
        ghost var left := Left();
        Skip();
        ghost var after := Left();
        assert after == left[1..];
        var digits := Digits(0, |text| - pos + 1);
        var micros := digits.value;
        if micros != "" {
          if |micros| > 6 {
            micros := micros[..6];
          }
          NumberOfPrefix(digits.value, micros, |micros|);
          MicrosOf(digits.value, micros);
          while |micros| < 6
            invariant AllDigits(micros) && |micros| <= 6
            invariant Micros(micros) == Micros(digits.value)
          {
            micros := micros + "0";
          }
          microsecond := Number(micros);
        }
      }
    }

    method ReadClock() returns (r: Option<Clock>)
      requires Valid()
      modifies this
      ensures Valid()
      ensures r == TakeClock(old(Left()))
      ensures r.Some? ==> Left() == r.value.zone
    {
      var separated := TimeSeparator();
      if !separated {
        return None;
      }
      var hour := ReadDigits(1, 2);
      if hour == None {
        return None;
      }
      var minute := ReadColonDigits();
      if minute == None {
        return None;
      }
      var second := ReadColonDigits();
      if second == None {
        return None;
      }
      var microsecond := Fraction();
      Spaces();
      return Some(Clock(hour.value.number, minute.value.number, second.value.number,
                        microsecond, text[pos..]));
    }

    method ReadZone() returns (r: Option<Zone>)
      requires Valid()
      modifies this
      ensures Valid()
      ensures r == TakeZone(old(Left()))
      ensures r.Some? ==> Left() == r.value.rest
    {
      hide TakeOffset;
      if Done() {
        return Some(Zone(None, ""));
      }
      var c := Peek().value;
      if c == 'Z' || c == 'z' {
        Skip();
        return Some(Zone(Some(0), text[pos..]));
      }
      if c != '+' && c != '-' {
        return None;
      }
      Skip();
      var minutes := ReadOffset();
      if minutes == None {
        return None;
      }
      var size: int := minutes.value;
      return Some(Zone(Some(if c == '+' then size else -size), text[pos..]));
    }

    method ReadOffset() returns (minutes: Option<nat>)
      requires Valid()
      modifies this
      ensures Valid()
      ensures minutes.Some? <==> TakeOffset(old(Left())).Some?
      ensures minutes.Some? ==>
                minutes.value == TakeOffset(old(Left())).value.number && Left() == TakeOffset(old(Left())).value.rest
    {
      var hours := ReadDigits(1, 2);
      if hours == None {
        return None;
      }
      var colon := Expect(':');
      if !colon {
        return Some(hours.value.number * 60);
      }
      var more := ReadDigits(2, 2);
      if more == None {
        return None;
      }
      return Some(hours.value.number * 60 + more.value.number);
    }

    // The time of a date already read, checked like the rest.
    method ReadTime(y: nat, m: nat, d: nat) returns (r: Option<Timestamp>)
      requires Valid()
      modifies this
      ensures r == Checked(ShapeTime(y, m, d, old(Left())))
    {
      var clock := ReadClock();
      if clock == None {
        return None;
      }
      var zone := ReadZone();
      if zone == None {
        return None;
      }
      Spaces();
      if !Done() {
        return None;
      }
      var t := DateTime(y, m, d, clock.value.hour, clock.value.minute, clock.value.second,
                        clock.value.microsecond, zone.value.offset);
      return if InRange(t) then Some(t) else None;
    }
  }

  lemma MicrosOf(digits: string, micros: string)
    requires AllDigits(digits)
    requires micros == if |digits| > 6 then digits[..6] else digits
    ensures AllDigits(micros) && Micros(micros) == Micros(digits)
  {
    if |digits| > 6 {
      NumberOfPrefix(digits, micros, 6);
    }
  }

  method Parse(value: string) returns (r: Option<Timestamp>)
    ensures r == Parsed(value)
  {
    var cur := new Cursor(value);
    var year := cur.ReadDigitsThen(4, 4, '-');
    if year == None {
      return None;
    }
    var month := cur.ReadDigitsThen(1, 2, '-');
    if month == None {
      return None;
    }
    var day := cur.ReadDigits(1, 2);
    if day == None {
      return None;
    }
    var y, m, d := year.value.number, month.value.number, day.value.number;
    if cur.Done() {
      if month.value.width != 2 || day.value.width != 2 || !ValidDate(y, m, d) {
        return None;
      }
      return Some(Date(y, m, d));
    }
    r := cur.ReadTime(y, m, d);
  }

  // ----- The recognizer: an index that moves over the text -----

  // The index after one or two digits.
  method OneOrTwoDigits(b: string, start: nat) returns (j: Option<nat>)
    requires start <= |b|
    ensures j.Some? <==> TakeNumber(b[start..], 1, 2).Some?
    ensures j.Some? ==> j.value <= |b| && b[j.value..] == TakeNumber(b[start..], 1, 2).value.rest
  {
    var i := start;
    while i < |b| && IsDigit(b[i]) && i - start < 2
      invariant start <= i <= |b| && i - start <= 2
      invariant DigitRun(b[start..], 0, 2) == i - start + DigitRun(b[start..], i - start, 2 - (i - start))
    {
      assert b[start..][i - start] == b[i];
      i := i + 1;
    }
    assert b[i..] == b[start..][i - start..];
    return if i > start then Some(i) else None;
  }

  // The index after a colon and two digits.
  method ColonAndTwoDigits(b: string, i: nat) returns (j: Option<nat>)
    requires i <= |b|
    ensures j.Some? <==> TakeColonNumber(b[i..]).Some?
    ensures j.Some? ==> j.value <= |b| && b[j.value..] == TakeColonNumber(b[i..]).value.rest
  {
    if i < |b| {
      var after := b[i..][1..];
      assert forall k | i < k < |b| :: b[k] == after[k - i - 1];
      if |b| > i + 2 {
        assert b[i + 3..] == after[2..];
      }
    }
    return if i + 2 < |b| && b[i] == ':' && IsDigit(b[i + 1]) && IsDigit(b[i + 2])
           then Some(i + 3) else None;
  }

  method SkipSpaces(b: string, start: nat) returns (i: nat)
    requires start <= |b|
    ensures i <= |b| && b[i..] == SkipBlanks(b[start..])
  {
    i := start;
    while i < |b| && IsBlank(b[i])
      invariant start <= i <= |b|
      invariant BlankRun(b[start..], 0) == i - start + BlankRun(b[start..], i - start)
    {
      assert b[start..][i - start] == b[i];
      i := i + 1;
    }
    assert b[i..] == b[start..][i - start..];
  }

  method RecognizeSeparator(b: string, start: nat) returns (i: Option<nat>)
    requires start <= |b|
    ensures i.Some? <==> TakeSeparator(b[start..]).Some?
    ensures i.Some? ==> i.value <= |b| && b[i.value..] == TakeSeparator(b[start..]).value
  {
    if start < |b| && (b[start] == 'T' || b[start] == 't') {
      assert b[start + 1..] == b[start..][1..];
      return Some(start + 1);
    } else if start < |b| && IsBlank(b[start]) {
      var next := SkipSpaces(b, start);
      return Some(next);
    }
    return None;
  }

  // The index where the zone would start, after the hour.
  method RecognizeMinute(b: string, start: nat, ghost hour: nat) returns (zone: Option<nat>)
    requires start <= |b|
    ensures zone.Some? <==> ClockMinute(hour, b[start..]).Some?
    ensures zone.Some? ==> zone.value <= |b| && b[zone.value..] == ClockMinute(hour, b[start..]).value.zone
  {
    var minute := ColonAndTwoDigits(b, start);
    if minute == None {
      return None;
    }
    var second := ColonAndTwoDigits(b, minute.value);
    if second == None {
      return None;
    }
    var i := SkipFraction(b, second.value);
    i := SkipSpaces(b, i);
    return Some(i);
  }

  // The index where the zone would start, after a separator and a time of day.
  method RecognizeClock(b: string, start: nat) returns (zone: Option<nat>)
    requires start <= |b|
    ensures zone.Some? <==> TakeClock(b[start..]).Some?
    ensures zone.Some? ==> zone.value <= |b| && b[zone.value..] == TakeClock(b[start..]).value.zone
  {
    var i := RecognizeSeparator(b, start);
    if i == None {
      return None;
    }
    var hour := OneOrTwoDigits(b, i.value);
    if hour == None {
      return None;
    }
    zone := RecognizeMinute(b, hour.value, TakeNumber(b[i.value..], 1, 2).value.number);
  }

  method SkipFraction(b: string, start: nat) returns (i: nat)
    requires start <= |b|
    ensures i <= |b| && b[i..] == TakeFraction(b[start..]).rest
  {
    i := start;
    if i < |b| && b[i] == '.' {
      i := i + 1;
      ghost var left := b[start..][1..];
      while i < |b| && IsDigit(b[i])
        invariant start < i <= |b|
        invariant DigitRun(left, 0, |left| + 1)
               == i - start - 1 + DigitRun(left, i - start - 1, |left| + 1 - (i - start - 1))
      {
        assert left[i - start - 1] == b[i];
        i := i + 1;
      }
      assert b[i..] == left[i - start - 1..];
    }
  }

  method RecognizeZone(b: string, start: nat) returns (r: bool)
    requires start <= |b|
    ensures r == LooksLikeZone(b[start..])
  {
    if start == |b| {
      return true;
    }
    if b[start] == 'Z' {
      return start + 1 == |b|;
    }
    if b[start] != '+' && b[start] != '-' {
      return false;
    }
    assert b[start + 1..] == b[start..][1..];
    var hours := OneOrTwoDigits(b, start + 1);
    if hours == None {
      return false;
    }
    if hours.value == |b| {
      return true;
    }
    var minutes := ColonAndTwoDigits(b, hours.value);
    return minutes.Some? && minutes.value == |b|;
  }

  method IsYaml11Timestamp(b: string) returns (r: bool)
    ensures r == LooksLike(b)
  {
    if !(|b| >= 5 && IsDigit(b[0]) && IsDigit(b[1]) && IsDigit(b[2]) && IsDigit(b[3]) && b[4] == '-') {
      NotAYear(b);
      return false;
    }
    YearRead(b);
    if |b| == 10 && IsDigit(b[5]) && IsDigit(b[6]) && b[7] == '-' && IsDigit(b[8]) && IsDigit(b[9]) {
      return true;
    }
    var day := RecognizeMonth(b, 5);
    if day == None {
      return false;
    }
    r := RecognizeDay(b, day.value);
  }

  // The index after a month and its dash.
  method RecognizeMonth(b: string, i: nat) returns (j: Option<nat>)
    requires i <= |b|
    ensures j.Some? <==> TakeNumberThen(b[i..], 1, 2, '-').Some?
    ensures j.Some? ==> j.value <= |b| && b[j.value..] == TakeNumberThen(b[i..], 1, 2, '-').value.rest
  {
    var month := OneOrTwoDigits(b, i);
    if month == None || month.value == |b| || b[month.value] != '-' {
      return None;
    }
    assert b[month.value + 1..] == b[month.value..][1..];
    return Some(month.value + 1);
  }

  method RecognizeDay(b: string, i: nat) returns (r: bool)
    requires i <= |b|
    ensures r == LooksLikeDay(b[i..])
  {
    var day := OneOrTwoDigits(b, i);
    if day == None {
      return false;
    }
    var zone := RecognizeClock(b, day.value);
    if zone == None {
      return false;
    }
    r := RecognizeZone(b, zone.value);
  }

  lemma NotAYear(b: string)
    requires !(|b| >= 5 && IsDigit(b[0]) && IsDigit(b[1]) && IsDigit(b[2]) && IsDigit(b[3]) && b[4] == '-')
    ensures TakeNumberThen(b, 4, 4, '-') == None
  {
  }

  lemma YearRead(b: string)
    requires |b| >= 5 && IsDigit(b[0]) && IsDigit(b[1]) && IsDigit(b[2]) && IsDigit(b[3]) && b[4] == '-'
    ensures TakeNumberThen(b, 4, 4, '-').Some? && TakeNumberThen(b, 4, 4, '-').value.rest == b[5..]
    ensures IsMonthDay(b[5..]) <==>
              |b| == 10 && IsDigit(b[5]) && IsDigit(b[6]) && b[7] == '-' && IsDigit(b[8]) && IsDigit(b[9])
  {
    assert DigitRun(b, 0, 4) == 4;
    assert b[4..][1..] == b[5..];
    if |b| == 10 {
      var s := b[5..];
      assert s[..2][0] == b[5] && s[..2][1] == b[6] && s[3..][0] == b[8] && s[3..][1] == b[9];
    }
  }
}
