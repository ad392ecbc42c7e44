/**
 Reading a timestamp (crates/barista-cli/src/wake.rs, `parse_rfc3339`).

 Text is given as its UTF-8 bytes.  `Panics` is the source's slice of a string inside a
 multi-byte character.
 */
module Wake {
  import opened Prelude
  import opened Civil

  type Byte = x: int | 0 <= x < 256

  const PLUS: Byte := 43
  const DASH: Byte := 45
  const DOT: Byte := 46
  const ZERO: Byte := 48
  const NINE: Byte := 57
  const COLON: Byte := 58

  predicate Digit(b: Byte) {
    ZERO <= b <= NINE
  }

  predicate Continuation(b: Byte) {
    0x80 <= b < 0xC0
  }

  predicate Digits(s: seq<Byte>) {
    forall i :: 0 <= i < |s| ==> Digit(s[i])
  }

  function Decimal(s: seq<Byte>): int {
    if s == [] then 0 else Decimal(s[..|s| - 1]) * 10 + (s[|s| - 1] as int - 48)
  }

  /** An integer as the source's library reads one: a sign if there is one, then digits. */
  function Number(s: seq<Byte>): Option<int> {
    if s == [] then None
    else if s[0] == DASH || s[0] == PLUS then
      (if |s| == 1 || !Digits(s[1..]) then None else Some(if s[0] == DASH then -Decimal(s[1..]) else Decimal(s[1..])))
    else if Digits(s) then Some(Decimal(s)) else None
  }

  datatype Parsed = NotATimestamp | Wrong | Panics | At(seconds: int)

  /** The separators of `YYYY-MM-DDTHH:MM:SS`. */
  predicate Shaped(s: seq<Byte>)
    requires |s| >= 19
  {
    s[7] == DASH && (s[10] == 'T' as int || s[10] == 't' as int) && s[13] == COLON && s[16] == COLON
  }

  /** The six numbers, if they are numbers. */
  function Fields(s: seq<Byte>): Option<Time>
    requires |s| >= 19
  {
    var year, month, day := Number(s[0..4]), Number(s[5..7]), Number(s[8..10]);
    var hour, minute, second := Number(s[11..13]), Number(s[14..16]), Number(s[17..19]);
    if year.None? || month.None? || day.None? || hour.None? || minute.None? || second.None? then None
    else Some(Time(Date(year.value, month.value, day.value), hour.value, minute.value, second.value))
  }

  /** The checks the source makes of them. */
  predicate Accepted(t: Time) {
    && 1 <= t.date.month <= 12 && 1 <= t.date.day <= 31 && t.hour < 24 && t.minute < 60 && t.second < 60
    && t.date.day <= DaysInMonth(t.date.year, t.date.month)
  }

  function SkipDigits(s: seq<Byte>): seq<Byte> {
    if s != [] && Digit(s[0]) then SkipDigits(s[1..]) else s
  }

  /** What is left once a fraction is discarded. */
  function Zone(s: seq<Byte>): seq<Byte> {
    if s != [] && s[0] == DOT then SkipDigits(s[1..]) else s
  }

  function WithoutColons(s: seq<Byte>): seq<Byte> {
    if s == [] then [] else if s[0] == COLON then WithoutColons(s[1..]) else [s[0]] + WithoutColons(s[1..])
  }

  datatype Offset = Seconds(value: int) | BadOffset | SplitsACharacter

  function ReadOffset(zone: seq<Byte>): Offset {
    if zone == ['Z' as int] || zone == ['z' as int] then Seconds(0)
    else if zone == [] || (zone[0] != PLUS && zone[0] != DASH) then BadOffset
    else
      var rest := WithoutColons(zone[1..]);
      if |rest| != 4 then BadOffset
      else if Continuation(rest[2]) then SplitsACharacter
      else
        var hours, minutes := Number(rest[0..2]), Number(rest[2..4]);
        if hours.None? || minutes.None? then BadOffset
        else Seconds((if zone[0] == PLUS then 1 else -1) * (hours.value * 3600 + minutes.value * 60))
  }

  function Parse(s: seq<Byte>): Parsed {
    if |s| < 19 || (|s| > 19 && Continuation(s[19])) || s[4] != DASH then NotATimestamp
    else if !Shaped(s) then Wrong
    else
      var t := Fields(s);
      if t.None? || !Accepted(t.value) then Wrong
      else match ReadOffset(Zone(s[19..]))
        case BadOffset => Wrong
        case SplitsACharacter => Panics
        case Seconds(offset) => At(Instant(t.value, offset))
  }

  // ---------------------------------------------------------------------------
  // Writing, and reading back
  // ---------------------------------------------------------------------------

  function Two(n: int): seq<Byte>
    requires 0 <= n < 100
  {
    [48 + n / 10, 48 + n % 10]
  }

  function Four(n: int): seq<Byte>
    requires 0 <= n < 10000
  {
    Two(n / 100) + Two(n % 100)
  }

  /** `YYYY-MM-DDTHH:MM:SS`. */
  function Format(t: Time): (s: seq<Byte>)
    requires Real(t) && 0 <= t.date.year < 10000
    ensures |s| == 19
  {
    Four(t.date.year) + [DASH] + Two(t.date.month) + [DASH] + Two(t.date.day) + ['T' as int] +
    Two(t.hour) + [COLON] + Two(t.minute) + [COLON] + Two(t.second)
  }

  function FormatOffset(east: bool, hours: int, minutes: int): seq<Byte>
    requires 0 <= hours < 100 && 0 <= minutes < 100
  {
    [if east then PLUS else DASH] + Two(hours) + [COLON] + Two(minutes)
  }

  lemma NumberOfTwo(n: int)
    requires 0 <= n < 100
    ensures Number(Two(n)) == Some(n)
  {
    var s := Two(n);
    assert s[..1] == [s[0]] && s[..1][..0] == [];
    assert Decimal(s[..1]) == n / 10;
  }

  lemma NumberOfFour(n: int)
    requires 0 <= n < 10000
    ensures Number(Four(n)) == Some(n)
  {
    var s := Four(n);
    var a, b := n / 100, n % 100;
    assert s == [48 + a / 10, 48 + a % 10, 48 + b / 10, 48 + b % 10];
    assert s[..3][..2] == s[..2] && s[..2][..1] == s[..1] && s[..1][..0] == [];
    assert Decimal(s[..1]) == a / 10;
    assert Decimal(s[..2]) == a;
    assert Decimal(s[..3]) == a * 10 + b / 10;
  }

  lemma FormatSlices(t: Time, zone: seq<Byte>)
    requires Real(t) && 0 <= t.date.year < 10000
    ensures var s := Format(t) + zone;
            && s[0..4] == Four(t.date.year) && s[5..7] == Two(t.date.month) && s[8..10] == Two(t.date.day)
            && s[11..13] == Two(t.hour) && s[14..16] == Two(t.minute) && s[17..19] == Two(t.second)
            && s[4] == DASH && Shaped(s) && s[19..] == zone
  {
  }

  lemma FormatFields(t: Time, zone: seq<Byte>)
    requires Real(t) && 0 <= t.date.year < 10000
    ensures Fields(Format(t) + zone) == Some(t)
  {
    FormatSlices(t, zone);
    NumberOfFour(t.date.year);
    NumberOfTwo(t.date.month);
    NumberOfTwo(t.date.day);
    NumberOfTwo(t.hour);
    NumberOfTwo(t.minute);
    NumberOfTwo(t.second);
  }

  /** After any real time, what is read depends on the rest as follows. */
  lemma FormattedParses(t: Time, zone: seq<Byte>)
    requires Real(t) && 0 <= t.date.year < 10000 && (zone != [] ==> !Continuation(zone[0]))
    ensures Parse(Format(t) + zone) ==
            match ReadOffset(Zone(zone))
            case BadOffset => Wrong
            case SplitsACharacter => Panics
            case Seconds(offset) => At(Instant(t, offset))
  {
    FormatSlices(t, zone);
    FormatFields(t, zone);
  }

  /** `x` is the time's wall clock, in seconds since midnight at the start of 1970 there. */
  ghost predicate Reads(t: Time, x: int) {
    exists n: int :: Walk(n) == t.date && x == n * 86400 + t.hour * 3600 + t.minute * 60 + t.second
  }

  lemma InstantReads(t: Time, offset: int)
    requires Real(t)
    ensures Reads(t, Instant(t, offset) + offset)
  {
    EveryDateIsCounted(t.date);
  }

  /** Every real time in UTC is read back as the seconds since the epoch, counted day by day. */
  lemma UtcRoundTrip(t: Time)
    requires Real(t) && 0 <= t.date.year < 10000
    ensures Parse(Format(t) + ['Z' as int]) == At(Instant(t, 0))
    ensures Parse(Format(t) + ['Z' as int]).At? && Reads(t, Parse(Format(t) + ['Z' as int]).seconds)
  {
    FormattedParses(t, ['Z' as int]);
    InstantReads(t, 0);
  }

  /** And at every offset: east of Greenwich the moment is that much earlier than the wall clock
      says, west of it that much later. */
  lemma OffsetRoundTrip(t: Time, east: bool, hours: int, minutes: int)
    requires Real(t) && 0 <= t.date.year < 10000 && 0 <= hours < 100 && 0 <= minutes < 100
    ensures var p, offset := Parse(Format(t) + FormatOffset(east, hours, minutes)), hours * 3600 + minutes * 60;
            p.At? && Reads(t, if east then p.seconds + offset else p.seconds - offset)
  {
    FormattedParses(t, FormatOffset(east, hours, minutes));
    ReadsFormattedOffset(east, hours, minutes);
    InstantReads(t, if east then hours * 3600 + minutes * 60 else -(hours * 3600 + minutes * 60));
  }

  lemma ReadsFormattedOffset(east: bool, hours: int, minutes: int)
    requires 0 <= hours < 100 && 0 <= minutes < 100
    ensures ReadOffset(FormatOffset(east, hours, minutes)) ==
            Seconds(if east then hours * 3600 + minutes * 60 else -(hours * 3600 + minutes * 60))
  {
    var zone := FormatOffset(east, hours, minutes);
    var h, m := Two(hours), Two(minutes);
    assert zone[1..] == [h[0], h[1], COLON, m[0], m[1]];
    ColonsOut(h[0], h[1], m[0], m[1]);
    var rest := [h[0], h[1], m[0], m[1]];
    assert rest[0..2] == h && rest[2..4] == m;
    NumberOfTwo(hours);
    NumberOfTwo(minutes);
  }

  lemma ColonsOut(a: Byte, b: Byte, c: Byte, d: Byte)
    requires a != COLON && b != COLON && c != COLON && d != COLON
    ensures WithoutColons([a, b, COLON, c, d]) == [a, b, c, d]
  {
    assert [d][1..] == [];
    assert WithoutColons([d]) == [d];
    assert [c, d][1..] == [d];
    assert WithoutColons([c, d]) == [c, d];
    assert [COLON, c, d][1..] == [c, d];
    assert WithoutColons([COLON, c, d]) == [c, d];
    assert [b, COLON, c, d][1..] == [COLON, c, d];
    assert WithoutColons([b, COLON, c, d]) == [b, c, d];
    assert [a, b, COLON, c, d][1..] == [b, COLON, c, d];
  }

  /** Two real times in UTC are read in the order of the calendar. */
  lemma ParsedInstantsKeepOrder(a: Time, b: Time)
    requires Real(a) && Real(b) && 0 <= a.date.year < 10000 && 0 <= b.date.year < 10000
    ensures var x, y := Parse(Format(a) + ['Z' as int]), Parse(Format(b) + ['Z' as int]);
            x.At? && y.At? && (Before(a, b) <==> x.seconds < y.seconds) && (a == b <==> x == y)
  {
    UtcRoundTrip(a);
    UtcRoundTrip(b);
    InstantsKeepOrder(a, b);
  }

  /** The lower-case spellings read the same. */
  lemma LowerCaseReadsTheSame(t: Time)
    requires Real(t) && 0 <= t.date.year < 10000
    ensures Parse(Format(t)[10 := 't' as int] + ['z' as int]) == Parse(Format(t) + ['Z' as int])
  {
    var f, l := Format(t) + ['Z' as int], Format(t)[10 := 't' as int] + ['z' as int];
    FormatSlices(t, ['Z' as int]);
    FormatFields(t, ['Z' as int]);
    assert l[0..4] == f[0..4] && l[5..7] == f[5..7] && l[8..10] == f[8..10];
    assert l[11..13] == f[11..13] && l[14..16] == f[14..16] && l[17..19] == f[17..19];
    assert l[19..] == ['z' as int] && f[19..] == ['Z' as int];
  }

  /** A real time with no zone, or with anything that is neither Z nor a numeric offset, is
      refused: it could mean several moments. */
  lemma OtherZonesAreRefused(t: Time, zone: seq<Byte>)
    requires Real(t) && 0 <= t.date.year < 10000
    requires zone == [] || (!Continuation(zone[0]) && zone[0] !in {PLUS, DASH, DOT, 'Z' as int, 'z' as int})
    ensures Parse(Format(t) + zone) == Wrong
  {
    FormattedParses(t, zone);
  }

  /** A number may have a sign, and a plus changes nothing. */
  lemma SignsAreRead(digits: seq<Byte>)
    requires digits != [] && Digits(digits)
    ensures Number(digits) == Number([PLUS] + digits) == Some(Decimal(digits))
    ensures Number([DASH] + digits) == Some(-Decimal(digits))
  {
    assert ([PLUS] + digits)[1..] == digits && ([DASH] + digits)[1..] == digits;
  }

  /** Text without a dash, as every duration is, is left to the other spelling. */
  lemma DurationsAreNotTimestamps(s: seq<Byte>)
    requires DASH !in s
    ensures Parse(s) == NotATimestamp
  {
  }

  // ---------------------------------------------------------------------------
  // Fractions
  // ---------------------------------------------------------------------------

  lemma {:induction false} SkipsAll(digits: seq<Byte>, zone: seq<Byte>)
    requires Digits(digits) && (zone != [] ==> !Digit(zone[0]))
    ensures SkipDigits(digits + zone) == zone
  {
    if digits == [] {
      assert digits + zone == zone;
    } else {
      assert (digits + zone)[1..] == digits[1..] + zone;
      SkipsAll(digits[1..], zone);
    }
  }

  lemma SameStart(s: seq<Byte>, a: seq<Byte>, b: seq<Byte>)
    requires |s| == 19
    ensures Shaped(s + a) == Shaped(s + b) && Fields(s + a) == Fields(s + b) && (s + a)[19..] == a && (s + b)[19..] == b
  {
    assert (s + a)[0..4] == (s + b)[0..4] && (s + a)[5..7] == (s + b)[5..7] && (s + a)[8..10] == (s + b)[8..10];
    assert (s + a)[11..13] == (s + b)[11..13] && (s + a)[14..16] == (s + b)[14..16] && (s + a)[17..19] == (s + b)[17..19];
  }

  /** A fraction of any precision changes nothing, whatever comes before and after it. */
  lemma FractionsAreDiscarded(s: seq<Byte>, digits: seq<Byte>, zone: seq<Byte>)
    requires |s| == 19 && Digits(digits)
    requires zone != [] ==> !Digit(zone[0]) && zone[0] != DOT && !Continuation(zone[0])
    ensures Parse(s + ([DOT] + digits + zone)) == Parse(s + zone)
  {
    var long := [DOT] + digits + zone;
    SameStart(s, long, zone);
    assert long[1..] == digits + zone;
    SkipsAll(digits, zone);
    assert Zone(long) == zone == Zone(zone);
  }

  // ---------------------------------------------------------------------------
  // What the checks let through
  // ---------------------------------------------------------------------------

  /** A two-digit field with a minus sign and something other than a zero. */
  predicate Negative(s: seq<Byte>, at: nat)
    requires at + 1 < |s|
  {
    s[at] == DASH && s[at + 1] != ZERO
  }

  lemma NegativeNumber(s: seq<Byte>)
    requires |s| == 2 && Number(s).Some?
    ensures Number(s).value < 0 <==> Negative(s, 0)
  {
    if s[0] == DASH || s[0] == PLUS {
      assert s[1..] == [s[1]] && [s[1]][..0] == [];
      assert Digit(s[1..][0]);
    } else {
      assert s[..1] == [s[0]] && s[..1][..0] == [];
      assert Decimal(s[..1]) == s[0] - 48;
    }
  }

  /** An accepted timestamp always names a real date; it names a real time of day if and only
      if none of its hour, minute and second is written with a minus sign. */
  lemma AcceptedIsRealExactlyWhen(s: seq<Byte>)
    requires Parse(s).At?
    ensures Fields(s).Some? && Valid(Fields(s).value.date)
    ensures Real(Fields(s).value) <==> !Negative(s, 11) && !Negative(s, 14) && !Negative(s, 17)
  {
    NegativeNumber(s[11..13]);
    NegativeNumber(s[14..16]);
    NegativeNumber(s[17..19]);
  }

  /** One hour before midnight on the ninth is accepted, as eleven at night on the eighth. */
  lemma MinusOneHourIsAccepted(s: seq<Byte>, t: Time)
    requires t == Time(Date(2026, 8, 9), 0, 0, 0)
    requires s == Format(t)[..11] + [DASH, 49] + Format(t)[13..] + ['Z' as int]
    ensures Parse(s) == At(Instant(Time(Date(2026, 8, 8), 23, 0, 0), 0))
  {
    var f := Format(t) + ['Z' as int];
    FormatSlices(t, ['Z' as int]);
    FormatFields(t, ['Z' as int]);
    assert |s| == 20 && s[19..] == ['Z' as int] && s[11..13] == [DASH, 49];
    forall i | 0 <= i < 19 && i != 11 && i != 12
      ensures s[i] == f[i]
    {
    }
    assert s[0..4] == f[0..4] && s[5..7] == f[5..7] && s[8..10] == f[8..10] && s[14..16] == f[14..16] && s[17..19] == f[17..19];
    assert [DASH, 49][1..] == [49] && [49][..0] == [];
    assert Number([DASH, 49 as Byte]) == Some(-1);
    TomorrowIsOneMore(Date(2026, 8, 8));
  }

  /** After an acceptable date and time the source panics if and only if the zone is a sign
      and four bytes, colons aside, with a character across the middle. */
  lemma PanicsExactlyWhen(s: seq<Byte>, zone: seq<Byte>)
    requires |s| == 19 && Parse(s + ['Z' as int]).At?
    ensures Parse(s + zone).Panics? <==>
              && (zone != [] ==> !Continuation(zone[0]))
              && Zone(zone) != [] && (Zone(zone)[0] == PLUS || Zone(zone)[0] == DASH)
              && |WithoutColons(Zone(zone)[1..])| == 4 && Continuation(WithoutColons(Zone(zone)[1..])[2])
  {
    SameStart(s, ['Z' as int], zone);
  }

  predicate Ascii(s: seq<Byte>) {
    forall i :: 0 <= i < |s| ==> s[i] < 0x80
  }

  lemma {:induction false} SkippingKeepsAscii(s: seq<Byte>)
    requires Ascii(s)
    ensures Ascii(SkipDigits(s))
  {
    if s != [] && Digit(s[0]) {
      SkippingKeepsAscii(s[1..]);
    }
  }

  lemma {:induction false} ColonsKeepAscii(s: seq<Byte>)
    requires Ascii(s)
    ensures Ascii(WithoutColons(s))
  {
    if s != [] {
      ColonsKeepAscii(s[1..]);
    }
  }

  /** Nothing typed in plain ASCII panics. */
  lemma AsciiNeverPanics(s: seq<Byte>)
    requires Ascii(s)
    ensures !Parse(s).Panics?
  {
    if |s| >= 19 {
      var tail := s[19..];
      if tail != [] {
        SkippingKeepsAscii(tail[1..]);
      }
      var zone := Zone(tail);
      if zone != [] {
        ColonsKeepAscii(zone[1..]);
      }
    }
  }

  /** `+0`, an accented letter and `0` do. */
  lemma AnAccentedOffsetPanics(t: Time)
    requires Real(t) && 0 <= t.date.year < 10000
    ensures Parse(Format(t) + [PLUS, 48, 0xC3, 0xA9, 48]).Panics?
  {
    var zone: seq<Byte> := [PLUS, 48, 0xC3, 0xA9, 48];
    FormattedParses(t, zone);
    var rest: seq<Byte> := [48, 0xC3, 0xA9, 48];
    assert zone[1..] == rest;
    assert rest[1..] == [0xC3, 0xA9, 48] && rest[1..][1..] == [0xA9, 48];
    assert [0xA9 as Byte, 48][1..] == [48 as Byte] && [48 as Byte][1..] == [];
    assert WithoutColons([0xA9, 48]) == [0xA9, 48];
    assert WithoutColons(rest[1..]) == rest[1..];
    assert WithoutColons(rest) == rest;
  }
}
