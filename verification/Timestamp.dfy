/** Datetimes and their two text forms: `isoformat()` and the RFC 3339 form of the proof hashes. */
module Timestamp {
  import opened Basics
  import opened Text
  import opened Calendar

  /** A Python datetime: wall-clock fields and, when aware, a UTC offset in microseconds. */
  datatype DateTime = DateTime(local: Civil, offset: Option<int>)

  /** The instant; a naive datetime is read as UTC. */
  function Instant(dt: DateTime): int {
    Micros(dt.local) - dt.offset.GetOr(0)
  }

  predicate ValidDateTime(dt: DateTime) {
    && Valid(dt.local) && dt.local.year <= 9999
    && (dt.offset.Some? ==> -MICROS_PER_DAY < dt.offset.value < MICROS_PER_DAY)
  }

  /** An aware UTC datetime, what `datetime.now(UTC)` yields. */
  function Utc(c: Civil): DateTime {
    DateTime(c, Some(0))
  }

  // ----- "YYYY-MM-DDTHH:MM:SS" followed by a tail -----

  function Stamp(c: Civil, tail: string): string
    requires Valid(c)
  {
    Pad(c.year, 4) + (['-'] + (Pad(c.month, 2) + (['-'] + (Pad(c.day, 2) + (['T'] +
    (Pad(c.hour, 2) + ([':'] + (Pad(c.minute, 2) + ([':'] + (Pad(c.second, 2) + tail))))))))))
  }

  lemma PowersOfTen()
    ensures Pow10(2) == 100 && Pow10(4) == 10_000 && Pow10(6) == 1_000_000
  {
    assert Pow10(1) == 10 && Pow10(3) == 1000 && Pow10(5) == 100_000;
  }

  predicate SameSecond(c: Civil, e: Civil) {
    SameDate(c, e) && c.hour == e.hour && c.minute == e.minute && c.second == e.second
  }

  predicate SecondBefore(c: Civil, e: Civil) {
    Before(c.(micro := 0), e.(micro := 0))
  }

  /** The stamp compares like the fields; the tails decide only within one second. */
  lemma StampOrder(c: Civil, e: Civil, x: string, y: string)
    requires Valid(c) && Valid(e) && c.year <= 9999 && e.year <= 9999
    ensures Less(Stamp(c, x), Stamp(e, y)) <==> SecondBefore(c, e) || (SameSecond(c, e) && Less(x, y))
  {
    hide Pad, Less, Pow10, TimeOfDay;
    PowersOfTen();
    var x5, y5 := Pad(c.second, 2) + x, Pad(e.second, 2) + y;
    FieldOrder(c.second, e.second, 2, x, y);
    SeparatorOrder(':', x5, y5);
    var x4, y4 := Pad(c.minute, 2) + ([':'] + x5), Pad(e.minute, 2) + ([':'] + y5);
    FieldOrder(c.minute, e.minute, 2, [':'] + x5, [':'] + y5);
    SeparatorOrder(':', x4, y4);
    var x3, y3 := Pad(c.hour, 2) + ([':'] + x4), Pad(e.hour, 2) + ([':'] + y4);
    FieldOrder(c.hour, e.hour, 2, [':'] + x4, [':'] + y4);
    SeparatorOrder('T', x3, y3);
    var x2, y2 := Pad(c.day, 2) + (['T'] + x3), Pad(e.day, 2) + (['T'] + y3);
    FieldOrder(c.day, e.day, 2, ['T'] + x3, ['T'] + y3);
    SeparatorOrder('-', x2, y2);
    var x1, y1 := Pad(c.month, 2) + (['-'] + x2), Pad(e.month, 2) + (['-'] + y2);
    FieldOrder(c.month, e.month, 2, ['-'] + x2, ['-'] + y2);
    SeparatorOrder('-', x1, y1);
    FieldOrder(c.year, e.year, 4, ['-'] + x1, ['-'] + y1);
  }

  /** Reads the fields back, with a zero fraction, and leaves the tail. */
  function ReadStamp(s: string): Option<(Civil, string)> {
    var (year, s1) :- ReadNumber(s, 4);
    var s2 :- ReadChar(s1, '-');
    var (month, s3) :- ReadNumber(s2, 2);
    var s4 :- ReadChar(s3, '-');
    var (day, s5) :- ReadNumber(s4, 2);
    var s6 :- ReadChar(s5, 'T');
    var (hour, s7) :- ReadNumber(s6, 2);
    var s8 :- ReadChar(s7, ':');
    var (minute, s9) :- ReadNumber(s8, 2);
    var s10 :- ReadChar(s9, ':');
    var (second, s11) :- ReadNumber(s10, 2);
    Some((Civil(year, month, day, hour, minute, second, 0), s11))
  }

  lemma ReadStampText(c: Civil, t: string)
    requires Valid(c) && c.year <= 9999
    ensures ReadStamp(Stamp(c, t)) == Some((c.(micro := 0), t))
  {
    hide Pad, ReadNumber, Pow10;
    PowersOfTen();
    var t1 := [':'] + (Pad(c.second, 2) + t);
    var t2 := [':'] + (Pad(c.minute, 2) + t1);
    var t3 := ['T'] + (Pad(c.hour, 2) + t2);
    var t4 := ['-'] + (Pad(c.day, 2) + t3);
    var t5 := ['-'] + (Pad(c.month, 2) + t4);
    ReadPad(c.year, 4, t5);
    ReadPad(c.month, 2, t4);
    ReadPad(c.day, 2, t3);
    ReadPad(c.hour, 2, t2);
    ReadPad(c.minute, 2, t1);
    ReadPad(c.second, 2, t);
  }

  /** The places of the marks and of the fields: "YYYY-MM-DDTHH:MM:SS", then the tail. */
  lemma StampShape(c: Civil, tail: string)
    requires Valid(c) && c.year <= 9999
    ensures
      var t := Stamp(c, tail);
      && |t| == 19 + |tail| && t[19..] == tail
      && t[4] == '-' && t[7] == '-' && t[10] == 'T' && t[13] == ':' && t[16] == ':'
      && AllDigits(t[..4]) && Value(t[..4]) == c.year && AllDigits(t[5..7]) && Value(t[5..7]) == c.month
      && AllDigits(t[8..10]) && Value(t[8..10]) == c.day && AllDigits(t[11..13]) && Value(t[11..13]) == c.hour
      && AllDigits(t[14..16]) && Value(t[14..16]) == c.minute && AllDigits(t[17..19]) && Value(t[17..19]) == c.second
  {
    hide Pad, Pow10, Value;
    PowersOfTen();
    PadValue(c.year, 4);
    PadValue(c.month, 2);
    PadValue(c.day, 2);
    PadValue(c.hour, 2);
    PadValue(c.minute, 2);
    PadValue(c.second, 2);
    var t := Stamp(c, tail);
    assert t[..4] == Pad(c.year, 4) && t[5..7] == Pad(c.month, 2) && t[8..10] == Pad(c.day, 2);
    assert t[11..13] == Pad(c.hour, 2) && t[14..16] == Pad(c.minute, 2) && t[17..19] == Pad(c.second, 2);
  }

  // ----- isoformat() -----

  /** The fraction is absent when zero, else six digits. */
  function MicroText(us: nat): string {
    if us == 0 then "" else ['.'] + Pad(us, 6)
  }

  /** `+HH:MM[:SS[.ffffff]]`, or nothing for a naive datetime. */
  function OffsetText(offset: Option<int>): string {
    if offset.None? then ""
    else if offset.value < 0 then OffsetMagnitude('-', -offset.value)
    else OffsetMagnitude('+', offset.value)
  }

  function OffsetMagnitude(sign: char, a: nat): (s: string)
    ensures s != "" && s[0] == sign
  {
    var seconds := a / 1_000_000;
    OffsetFields(sign, seconds / 3600, seconds / 60 % 60, seconds % 60, a % 1_000_000)
  }

  function OffsetFields(sign: char, hours: nat, minutes: nat, seconds: nat, micros: nat): string {
    [sign] + (Pad(hours, 2) + ([':'] + (Pad(minutes, 2) +
    (if seconds == 0 && micros == 0 then "" else [':'] + (Pad(seconds, 2) + MicroText(micros))))))
  }

  function IsoFormat(dt: DateTime): string
    requires Valid(dt.local)
  {
    Stamp(dt.local, MicroText(dt.local.micro) + OffsetText(dt.offset))
  }

  /** `+` and `-` sort before `.`, so a missing fraction sorts first. */
  lemma MicroOrder(us: nat, vs: nat, suffix: string)
    requires us < 1_000_000 && vs < 1_000_000
    requires suffix != "" && (suffix[0] == '+' || suffix[0] == '-')
    ensures Less(MicroText(us) + suffix, MicroText(vs) + suffix) <==> us < vs
  {
    hide Pad, Pow10;
    if us > 0 && vs > 0 {
      PowersOfTen();
      assert MicroText(us) + suffix == ['.'] + (Pad(us, 6) + suffix);
      assert MicroText(vs) + suffix == ['.'] + (Pad(vs, 6) + suffix);
      SeparatorOrder('.', Pad(us, 6) + suffix, Pad(vs, 6) + suffix);
      FieldOrder(us, vs, 6, suffix, suffix);
      LessTrichotomy(suffix, suffix);
    } else if us == 0 && vs == 0 {
      LessTrichotomy(MicroText(0) + suffix, MicroText(0) + suffix);
    } else {
      assert MicroText(0) + suffix == suffix;
    }
  }

  /** Text order is time order for any two datetimes that share one offset; UTC is the case the stores use. */
  lemma IsoTextOrder(a: DateTime, b: DateTime)
    requires ValidDateTime(a) && ValidDateTime(b) && a.offset.Some? && a.offset == b.offset
    ensures Less(IsoFormat(a), IsoFormat(b)) <==> Instant(a) < Instant(b)
    ensures IsoFormat(a) == IsoFormat(b) <==> Instant(a) == Instant(b)
  {
    IsoOneWay(a, b);
    IsoOneWay(b, a);
    LessTrichotomy(IsoFormat(a), IsoFormat(b));
    FieldsOrderInstants(a.local, b.local);
  }

  lemma IsoOneWay(a: DateTime, b: DateTime)
    requires ValidDateTime(a) && ValidDateTime(b) && a.offset.Some? && a.offset == b.offset
    ensures Less(IsoFormat(a), IsoFormat(b)) <==> Instant(a) < Instant(b)
  {
    hide Stamp, MicroText, Ordinal;
    var suffix := OffsetText(a.offset);
    StampOrder(a.local, b.local, MicroText(a.local.micro) + suffix, MicroText(b.local.micro) + suffix);
    MicroOrder(a.local.micro, b.local.micro, suffix);
    FieldsOrderInstants(a.local, b.local);
  }

  /** Across offsets it fails: 12:00+02:00 is earlier than 11:00+00:00 and still sorts after it. */
  lemma IsoTextOrderNeedsOneOffset()
    ensures exists a: DateTime, b: DateTime ::
      && ValidDateTime(a) && ValidDateTime(b) && a.offset.Some? && b.offset.Some?
      && Instant(a) < Instant(b) && Less(IsoFormat(b), IsoFormat(a))
  {
    var a := DateTime(Civil(2026, 3, 1, 12, 0, 0, 0), Some(7_200_000_000));
    var b := Utc(Civil(2026, 3, 1, 11, 0, 0, 0));
    StampOrder(b.local, a.local, MicroText(0) + OffsetText(b.offset), MicroText(0) + OffsetText(a.offset));
    assert ValidDateTime(a) && ValidDateTime(b) && Instant(a) < Instant(b) && Less(IsoFormat(b), IsoFormat(a));
  }

  // ----- fromisoformat(), on the texts isoformat() writes -----

  function ReadMicros(s: string): Option<(nat, string)> {
    if s != "" && s[0] == '.' then ReadNumber(s[1..], 6) else Some((0, s))
  }

  function ReadOffset(s: string): Option<Option<int>> {
    if s == "" then Some(None)
    else if s[0] != '+' && s[0] != '-' then None
    else
      var (hours, s1) :- ReadNumber(s[1..], 2);
      var s2 :- ReadChar(s1, ':');
      var (minutes, s3) :- ReadNumber(s2, 2);
      var (seconds, s4) :- if s3 == "" then Some((0, s3)) else
                             var s5 :- ReadChar(s3, ':'); ReadNumber(s5, 2);
      var (micros, s6) :- ReadMicros(s4);
      var a: int := ((hours * 60 + minutes) * 60 + seconds) * 1_000_000 + micros;
      if s6 == "" then Some(Some(if s[0] == '-' then -a else a)) else None
  }

  /** `datetime.fromisoformat`. */
  function ParseIso(s: string): Option<DateTime> {
    var (c, s1) :- ReadStamp(s);
    var (micro, s2) :- ReadMicros(s1);
    var offset :- ReadOffset(s2);
    var dt := DateTime(c.(micro := micro), offset);
    if ValidDateTime(dt) then Some(dt) else None
  }

  lemma ReadMicroText(us: nat, rest: string)
    requires us < 1_000_000 && (rest == "" || rest[0] != '.')
    ensures ReadMicros(MicroText(us) + rest) == Some((us, rest))
  {
    hide Pad, ReadNumber;
    PowersOfTen();
    if us == 0 {
      assert MicroText(us) + rest == rest;
    } else {
      assert (MicroText(us) + rest)[1..] == Pad(us, 6) + rest;
      ReadPad(us, 6, rest);
    }
  }

  lemma ReadOffsetText(offset: Option<int>)
    requires offset.Some? ==> -MICROS_PER_DAY < offset.value < MICROS_PER_DAY
    ensures ReadOffset(OffsetText(offset)) == Some(offset)
  {
    hide ReadOffset, OffsetMagnitude;
    if offset.None? {
      ReadNoOffset();
    } else if offset.value < 0 {
      ReadOffsetMagnitude('-', -offset.value);
    } else {
      ReadOffsetMagnitude('+', offset.value);
    }
  }

  lemma ReadNoOffset()
    ensures ReadOffset("") == Some(None)
  {
  }

  lemma ReadOffsetMagnitude(sign: char, a: nat)
    requires sign == '+' || sign == '-'
    requires a < MICROS_PER_DAY
    ensures ReadOffset(OffsetMagnitude(sign, a)) == Some(Some(if sign == '-' then 0 - a else a))
  {
    hide ReadOffset, OffsetFields;
    SplitOffset(a);
    ReadOffsetFields(sign, a / 1_000_000 / 3600, a / 1_000_000 / 60 % 60, a / 1_000_000 % 60, a % 1_000_000, a);
  }

  lemma ReadOffsetFields(sign: char, hours: nat, minutes: nat, seconds: nat, micros: nat, a: int)
    requires sign == '+' || sign == '-'
    requires hours < 100 && minutes < 60 && seconds < 60 && micros < 1_000_000
    requires a == ((hours * 60 + minutes) * 60 + seconds) * 1_000_000 + micros
    ensures ReadOffset(OffsetFields(sign, hours, minutes, seconds, micros)) == Some(Some(if sign == '-' then -a else a))
  {
    hide Pad, ReadNumber, Pow10;
    PowersOfTen();
    var t1 := MicroText(micros);
    var t2 := if seconds == 0 && micros == 0 then "" else [':'] + (Pad(seconds, 2) + t1);
    ReadPad(hours, 2, [':'] + (Pad(minutes, 2) + t2));
    ReadPad(minutes, 2, t2);
    ReadPad(seconds, 2, t1);
    assert t1 + "" == t1;
    ReadMicroText(micros, "");
  }

  lemma SplitOffset(a: int)
    requires 0 <= a < MICROS_PER_DAY
    ensures a == ((a / 1_000_000 / 3600 * 60 + a / 1_000_000 / 60 % 60) * 60 + a / 1_000_000 % 60) * 1_000_000 + a % 1_000_000
    ensures a / 1_000_000 / 3600 < 24
  {
    var seconds := a / 1_000_000;
    var minutes := seconds / 60;
    assert seconds / 3600 == minutes / 60;
  }

  /** A stored expiry reads back unchanged. */
  lemma IsoRoundTrip(dt: DateTime)
    requires ValidDateTime(dt)
    ensures ParseIso(IsoFormat(dt)) == Some(dt)
  {
    var suffix := OffsetText(dt.offset);
    ReadStampText(dt.local, MicroText(dt.local.micro) + suffix);
    ReadMicroText(dt.local.micro, suffix);
    ReadOffsetText(dt.offset);
  }

  // ----- The RFC 3339 form: UTC, `Z`, trailing zeros of the fraction dropped -----

  /** `f"{us:06d}".rstrip("0")` after a point, or nothing. */
  function FractionText(us: nat): string {
    if us == 0 then "" else ['.'] + StripZeros(Pad(us, 6))
  }

  function RfcText(c: Civil): string
    requires Valid(c)
  {
    Stamp(c, FractionText(c.micro) + ['Z'])
  }

  /** `dt.astimezone(UTC).replace(tzinfo=None)` for an aware datetime. */
  function UtcFields(dt: DateTime): (c: Civil)
    requires ValidDateTime(dt) && Instant(dt) >= FIRST_INSTANT
    ensures Valid(c)
  {
    if dt.offset.None? then dt.local else FromMicros(Instant(dt))
  }

  /** The years for which `strftime("%Y")` is known to print four digits. */
  predicate Formattable(dt: DateTime) {
    && ValidDateTime(dt) && Instant(dt) >= FIRST_INSTANT
    && 1000 <= UtcFields(dt).year <= 9999
  }

  /** `_format_datetime_rfc3339nano`. */
  function FormatRfc3339(dt: DateTime): string
    requires Formattable(dt)
  {
    RfcText(UtcFields(dt))
  }

  /** The same years, for code that prints the wall-clock fields. */
  predicate InlineFormattable(dt: DateTime) {
    ValidDateTime(dt) && 1000 <= dt.local.year
  }

  /** The inline code of `_compute_proof_hash_parts`: the same text, without the conversion to UTC. */
  function FormatInline(dt: DateTime): string
    requires InlineFormattable(dt)
  {
    RfcText(dt.local)
  }

  // ----- Reading the RFC 3339 form back -----

  function ReadTail(s: string): Option<nat> {
    if s == "Z" then Some(0)
    else if s == "" || s[0] != '.' || s[|s| - 1] != 'Z' then None
    else
      var digits := s[1..|s| - 1];
      if 1 <= |digits| <= 6 && AllDigits(digits)
      then Some(Value(digits + Zeros(6 - |digits|)))
      else None
  }

  function ParseRfc3339(s: string): Option<Civil> {
    var (c, rest) :- ReadStamp(s);
    var micro :- ReadTail(rest);
    if Valid(c.(micro := micro)) then Some(c.(micro := micro)) else None
  }

  lemma ReadFraction(us: nat)
    requires us < 1_000_000
    ensures ReadTail(FractionText(us) + ['Z']) == Some(us)
    ensures us > 0 ==> FractionText(us)[|FractionText(us)| - 1] != '0'
  {
    if us > 0 {
      PowersOfTen();
      var s := FractionText(us) + ['Z'];
      var digits := StripZeros(Pad(us, 6));
      StripThenRestore(Pad(us, 6));
      PadValue(us, 6);
      assert s[1..|s| - 1] == digits;
      AllZeros(6);
      assert "" + Zeros(6) == Zeros(6);
    }
  }

  lemma {:induction false} AllZeros(k: nat)
    ensures AllDigits(Zeros(k)) && Value(Zeros(k)) == 0
  {
    if k > 0 {
      AllZeros(k - 1);
      assert Zeros(k)[..k - 1] == Zeros(k - 1);
    }
  }

  lemma ParseRfcText(c: Civil)
    requires Valid(c) && c.year <= 9999
    ensures ParseRfc3339(RfcText(c)) == Some(c)
  {
    ReadStampText(c, FractionText(c.micro) + ['Z']);
    ReadFraction(c.micro);
  }

  // ----- Main results -----

  /** After the stamp of a UTC `isoformat()`: no fraction when it is zero, else six digits; then "+00:00". */
  lemma IsoUtcText(c: Civil)
    requires Valid(c)
    ensures IsoFormat(Utc(c)) == Stamp(c, (if c.micro == 0 then "" else "." + Pad(c.micro, 6)) + "+00:00")
  {
    hide Stamp, Pad;
    ZeroOffset();
    assert MicroText(c.micro) == if c.micro == 0 then "" else "." + Pad(c.micro, 6);
  }

  lemma ZeroOffset()
    ensures OffsetText(Some(0)) == "+00:00"
  {
    hide Pad;
    TwoZeros();
    assert OffsetMagnitude('+', 0) == OffsetFields('+', 0, 0, 0, 0);
  }

  /** East is "+", west is "-", and a naive datetime has no offset text. */
  lemma OffsetTexts()
    ensures OffsetText(Some(7_200_000_000)) == "+02:00" && OffsetText(Some(-19_800_000_000)) == "-05:30" && OffsetText(None) == ""
  {
    hide Pad;
    SmallPads();
    assert OffsetMagnitude('+', 7_200_000_000) == OffsetFields('+', 2, 0, 0, 0);
    assert OffsetMagnitude('-', 19_800_000_000) == OffsetFields('-', 5, 30, 0, 0);
  }

  lemma SmallPads()
    ensures Pad(0, 2) == "00" && Pad(2, 2) == "02" && Pad(5, 2) == "05" && Pad(30, 2) == "30"
  {
    assert Pad(0, 1) == "0" && Pad(3, 1) == "3" by {
      assert Pad(0, 0) == "";
    }
  }

  lemma TwoZeros()
    ensures Pad(0, 2) == "00"
  {
    assert Pad(0, 1) == "0" by {
      assert Pad(0, 0) == "";
    }
  }

  /** After the stamp of the RFC 3339 form: "Z" alone, or a point, one to six digits of which the last is not 0, and "Z". */
  lemma RfcTail(us: nat)
    requires us < 1_000_000
    ensures us == 0 ==> FractionText(us) + ['Z'] == "Z"
    ensures us > 0 ==>
              var digits := StripZeros(Pad(us, 6));
              && FractionText(us) + ['Z'] == "." + digits + "Z" && 1 <= |digits| <= 6 && digits[|digits| - 1] != '0'
              && AllDigits(digits) && Value(digits + Zeros(6 - |digits|)) == us
  {
    ReadFraction(us);
    if us > 0 {
      StripThenRestore(Pad(us, 6));
      PowersOfTen();
      PadValue(us, 6);
      AllZeros(6);
      assert "" + Zeros(6) == Zeros(6);
    }
  }

  /** The text reads back to the same instant, to the microsecond. */
  lemma FormatRoundTrip(dt: DateTime)
    requires Formattable(dt)
    ensures ParseRfc3339(FormatRfc3339(dt)).Some?
    ensures Micros(ParseRfc3339(FormatRfc3339(dt)).value) == Instant(dt)
  {
    ParseRfcText(UtcFields(dt));
  }

  /** Two datetimes share a text exactly when they denote one instant, whatever their offsets. */
  lemma FormatDecidesInstant(a: DateTime, b: DateTime)
    requires Formattable(a) && Formattable(b)
    ensures FormatRfc3339(a) == FormatRfc3339(b) <==> Instant(a) == Instant(b)
  {
    ParseRfcText(UtcFields(a));
    ParseRfcText(UtcFields(b));
    FieldsOrderInstants(UtcFields(a), UtcFields(b));
  }

  /** The inline formatter agrees with the helper exactly on naive and zero-offset datetimes. */
  lemma InlineAgreesExactlyOnUtc(dt: DateTime)
    requires Formattable(dt) && InlineFormattable(dt)
    ensures FormatInline(dt) == FormatRfc3339(dt) <==> dt.offset.GetOr(0) == 0
  {
    ParseRfcText(dt.local);
    ParseRfcText(UtcFields(dt));
    FieldsOrderInstants(dt.local, UtcFields(dt));
  }

  /** The inline text determines the wall-clock fields, and nothing about the offset. */
  lemma InlineDecidesFields(a: DateTime, b: DateTime)
    requires InlineFormattable(a) && InlineFormattable(b)
    ensures FormatInline(a) == FormatInline(b) <==> a.local == b.local
  {
    ParseRfcText(a.local);
    ParseRfcText(b.local);
  }
}
