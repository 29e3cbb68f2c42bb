/**
 * The migration path grammar. Each parser takes the input and, on success, returns the
 * value it read and the input left over; `None` is a failure after which an enclosing
 * alternative tries its next branch with the same input.
 */
module PathParser {
  import opened Wrappers
  import opened Text
  import opened PathAst

  /** A successful parse: the value read and the input still to read. */
  datatype Parsed<T> = Parsed(value: T, rest: string)

  /** 2000-01-01T00:00:00Z, the earliest instant an epoch timestamp may denote. */
  const MinEpochSeconds: int := 946_684_800
  /** 2100-01-02T00:00:00Z: the latest date allowed is 2100-01-01 itself, so this is the first instant refused. */
  const EndEpochSeconds: int := 4_102_531_200

  // ---------------------------------------------------------------------------
  // Characters and literals.

  /** The input after the literal `lit`, if it starts with it. */
  function Tag(s: string, lit: string): (r: Option<string>)
    ensures r.Some? ==> s == lit + r.value
  {
    if |lit| <= |s| && s[..|lit|] == lit then Some(s[|lit|..]) else None
  }

  /** The number of decimal digits the input starts with. */
  function LeadingDigits(s: string): (k: nat)
    ensures k <= |s| && AllDigits(s[..k]) && (k < |s| ==> !IsDigit(s[k]))
  {
    if |s| == 0 || !IsDigit(s[0]) then 0
    else
      var k := 1 + LeadingDigits(s[1..]);
      assert forall i :: 1 <= i < k ==> s[..k][i] == s[1..][..k - 1][i - 1];
      k
  }

  /** `digit1`: all the leading digits, at least one. */
  function Digit1(s: string): (r: Option<Parsed<string>>)
    ensures r.Some? ==> |r.value.value| > 0 && AllDigits(r.value.value) && s == r.value.value + r.value.rest
    ensures r.Some? ==> r.value.rest == [] || !IsDigit(r.value.rest[0])
    ensures r.None? <==> |s| == 0 || !IsDigit(s[0])
  {
    var k := LeadingDigits(s);
    assert s == s[..k] + s[k..];
    if k == 0 then None else Some(Parsed(s[..k], s[k..]))
  }

  /** `digit_n(n)`: exactly `n` digits. */
  function DigitN(s: string, n: nat): (r: Option<Parsed<string>>)
    ensures r.Some? ==> |r.value.value| == n && AllDigits(r.value.value) && s == r.value.value + r.value.rest
    ensures r.Some? <==> n <= |s| && AllDigits(s[..n])
  {
    assert n <= |s| ==> s == s[..n] + s[n..];
    if n <= |s| && AllDigits(s[..n]) then Some(Parsed(s[..n], s[n..])) else None
  }

  function SepToken(c: char): Option<Token> {
    if c == '.' then Some(Dot) else if c == '_' then Some(Underscore) else if c == '-' then Some(Dash) else None
  }

  /** `sep`: one `.`, `_` or `-`. */
  function Sep(s: string): (r: Option<Parsed<Token>>)
    ensures r.Some? ==> s == TokenText(r.value.value) + r.value.rest
    ensures r.Some? ==> r.value.value in {Dot, Underscore, Dash}
  {
    if |s| > 0 && SepToken(s[0]).Some? then
      assert s == [s[0]] + s[1..];
      Some(Parsed(SepToken(s[0]).value, s[1..]))
    else None
  }

  /** `opt(sep_literal)`: the separator's text, if there is one. */
  function OptSep(s: string): (r: Parsed<Option<string>>)
    ensures s == SepText(r.value) + r.rest
    ensures r.value.Some? ==> r.value.value in {".", "_", "-"}
  {
    match Sep(s)
    case Some(p) => Parsed(Some(TokenText(p.value)), p.rest)
    case None => Parsed(None, s)
  }

  /** `repeat(0.., sep)`: as many separators as there are. */
  function Seps(s: string): (r: Parsed<seq<Token>>)
    ensures s == TokensText(r.value) + r.rest
    ensures forall i :: 0 <= i < |r.value| ==> r.value[i] in {Dot, Underscore, Dash}
    ensures NoMarkers(r.value)
    ensures Sep(r.rest).None?
    decreases |s|
  {
    match Sep(s)
    case None =>
      assert TokensText([]) == "";
      Parsed([], s)
    case Some(p) =>
      var more := Seps(p.rest);
      SepsCons(s, p, more);
      Parsed([p.value] + more.value, more.rest)
  }

  /** One more separator in front of the separators read after it. */
  lemma SepsCons(s: string, p: Parsed<Token>, more: Parsed<seq<Token>>)
    requires s == TokenText(p.value) + p.rest && p.value in {Dot, Underscore, Dash}
    requires p.rest == TokensText(more.value) + more.rest
    requires forall i :: 0 <= i < |more.value| ==> more.value[i] in {Dot, Underscore, Dash}
    ensures s == TokensText([p.value] + more.value) + more.rest
    ensures forall i :: 0 <= i < |[p.value] + more.value| ==> ([p.value] + more.value)[i] in {Dot, Underscore, Dash}
    ensures NoMarkers([p.value] + more.value)
  {
    TokensTextCons(p.value, more.value);
  }

  lemma TokensTextCons(t: Token, ts: seq<Token>)
    ensures TokensText([t] + ts) == TokenText(t) + TokensText(ts)
  {
    var all := [t] + ts;
    var pieces := seq(|all|, i requires 0 <= i < |all| => TokenText(all[i]));
    var tail := seq(|ts|, i requires 0 <= i < |ts| => TokenText(ts[i]));
    assert pieces == [TokenText(t)] + tail;
    ConcatAppend([TokenText(t)], tail);
    assert [TokenText(t)][..0] == [];
  }

  // ---------------------------------------------------------------------------
  // Numbers that are not dates.

  /** `padded_number`: the leading digits, as a padded number. */
  function PaddedNumberToken(s: string): (r: Option<Parsed<Token>>)
    ensures r.Some? ==> r.value.value.Padded? && s == TokenText(r.value.value) + r.value.rest
  {
    match Digit1(s)
    case None => None
    case Some(d) =>
      match PaddedNumberFromStr(d.value)
      case None => None
      case Some(p) =>
        PaddedNumberRoundTrip(d.value);
        Some(Parsed(Padded(p), d.rest))
  }

  /** `random_number`: the leading digits, as a `usize`. */
  function RandomNumberToken(s: string): (r: Option<Parsed<Token>>)
    ensures r.Some? ==> r.value.value.RandomNumber? && r.value.value.random <= UsizeMax
    ensures r.Some? ==> (Digit1(s).Some? && s == Digit1(s).value.value + r.value.rest
      && r.value.value.random == DigitsValue(Digit1(s).value.value))
  {
    match Digit1(s)
    case None => None
    case Some(d) =>
      match ParseUnsigned(d.value, UsizeMax)
      case None => None
      case Some(n) => Some(Parsed(RandomNumber(n), d.rest))
  }

  /** `separated(3, digit1, '.')`: three digit runs and the two dots between them. */
  function ThreeDigitRuns(s: string): (r: Option<Parsed<(string, string, string)>>)
    ensures r.Some? ==> var a, b, c := r.value.value.0, r.value.value.1, r.value.value.2;
      |a| > 0 && |b| > 0 && |c| > 0 && AllDigits(a) && AllDigits(b) && AllDigits(c) &&
      s == a + "." + b + "." + c + r.value.rest
  {
    match Digit1(s)
    case None => None
    case Some(a) =>
      match Tag(a.rest, ".")
      case None => None
      case Some(r1) =>
        match Digit1(r1)
        case None => None
        case Some(b) =>
          match Tag(b.rest, ".")
          case None => None
          case Some(r2) =>
            match Digit1(r2)
            case None => None
            case Some(c) =>
              ConcatFive(s, a.value, r1, b.value, r2, c.value, c.rest);
              Some(Parsed((a.value, b.value, c.value), c.rest))
  }

  lemma ConcatFive(s: string, a: string, r1: string, b: string, r2: string, c: string, rest: string)
    requires s == a + ("." + r1) && r1 == b + ("." + r2) && r2 == c + rest
    ensures s == a + "." + b + "." + c + rest
  {
  }

  /** `semver`: the text of three digit runs, read as a version; it fails when a run exceeds `u32`. */
  function SemverToken(s: string): (r: Option<Parsed<Token>>)
    ensures r.Some? ==> r.value.value.Version? && s == TokenText(r.value.value) + r.value.rest
  {
    match ThreeDigitRuns(s)
    case None => None
    case Some(p) =>
      var a, b, c := p.value.0, p.value.1, p.value.2;
      var text := a + "." + b + "." + c;
      if SemverFromStr(text).Some? then
        VersionTokenText(a, b, c);
        Some(Parsed(Version(SemverFromStr(text).value), p.rest))
      else None
  }

  lemma VersionTokenText(a: string, b: string, c: string)
    requires AllDigits(a) && AllDigits(b) && AllDigits(c)
    requires SemverFromStr(a + "." + b + "." + c).Some?
    ensures TokenText(Version(SemverFromStr(a + "." + b + "." + c).value)) == a + "." + b + "." + c
  {
    NoPlusInVersion(a, b, c);
    SemverParsePrint(a + "." + b + "." + c);
  }

  lemma NoPlusInDigits(d: string)
    requires AllDigits(d)
    ensures '+' !in d
  {
    assert forall k :: 0 <= k < |d| ==> d[k] != '+';
  }

  lemma NoPlusInVersion(a: string, b: string, c: string)
    requires AllDigits(a) && AllDigits(b) && AllDigits(c)
    ensures '+' !in a + "." + b + "." + c
  {
    NoPlusInDigits(a);
    NoPlusInDigits(b);
    NoPlusInDigits(c);
  }

  // ---------------------------------------------------------------------------
  // Calendar dates and times.

  /** `year`: "20" and two digits, so 2000 to 2099. */
  function Year(s: string): (r: Option<Parsed<nat>>)
    ensures r.Some? ==> 2000 <= r.value.value <= 2099
    ensures r.Some? ==> s == FormatSigned(r.value.value, 2) + r.value.rest
    ensures r.Some? <==> 4 <= |s| && s[..2] == "20" && AllDigits(s[2..4])
  {
    if 4 <= |s| && s[..2] == "20" && AllDigits(s[2..4]) then
      var text := s[..4];
      YearValue(text);
      assert s == text + s[4..];
      Some(Parsed(DigitsValue(text), s[4..]))
    else None
  }

  lemma YearValue(text: string)
    requires |text| == 4 && text[..2] == "20" && AllDigits(text[2..4])
    ensures AllDigits(text) && 2000 <= DigitsValue(text) <= 2099
    ensures FormatSigned(DigitsValue(text), 2) == text
  {
    YearDigits(text);
    PadDecimalRoundTrip(text);
    DecimalAtLeastFour(DigitsValue(text));
  }

  lemma YearDigits(text: string)
    requires |text| == 4 && text[..2] == "20" && AllDigits(text[2..4])
    ensures AllDigits(text) && 2000 <= DigitsValue(text) <= 2099
  {
    assert text[0] == "20"[0] && text[1] == "20"[1];
    assert text[2] == text[2..4][0] && text[3] == text[2..4][1];
    assert AllDigits(text);
    assert text[..3][..2] == text[..2];
    assert DigitsValue("20"[..1]) == 2;
    assert DigitsValue(text) == DigitsValue(text[..3]) * 10 + DigitValue(text[3]);
    assert DigitsValue(text[..3]) == 20 * 10 + DigitValue(text[2]);
  }

  lemma DecimalAtLeastFour(v: nat)
    requires v >= 1000
    ensures |Decimal(v)| >= 4
  {
    assert Decimal(v) == Decimal(v / 10) + [DigitChar(v % 10)];
    assert Decimal(v / 10) == Decimal(v / 10 / 10) + [DigitChar(v / 10 % 10)];
    assert Decimal(v / 10 / 10) == Decimal(v / 10 / 10 / 10) + [DigitChar(v / 10 / 10 % 10)];
  }

  /** A two-digit field, kept only when its value lies in `lo..=hi`. */
  function Field2(s: string, lo: nat, hi: nat): (r: Option<Parsed<nat>>)
    ensures r.Some? ==> lo <= r.value.value <= hi
    ensures r.Some? ==> s == Pad2(r.value.value) + r.value.rest
    ensures r.Some? <==> DigitN(s, 2).Some? && lo <= DigitsValue(s[..2]) <= hi
  {
    match DigitN(s, 2)
    case None => None
    case Some(d) =>
      var v := DigitsValue(d.value);
      if lo <= v <= hi then
        PadDecimalRoundTrip(d.value);
        Some(Parsed(v, d.rest))
      else None
  }

  /** `month`: 1 to 12. */
  function Month(s: string): (r: Option<Parsed<nat>>)
    ensures r.Some? ==> 1 <= r.value.value <= 12 && s == Pad2(r.value.value) + r.value.rest
  {
    Field2(s, 1, 12)
  }

  /** `day`: 1 to 31, whatever the month. */
  function Day(s: string): (r: Option<Parsed<nat>>)
    ensures r.Some? ==> 1 <= r.value.value <= 31 && s == Pad2(r.value.value) + r.value.rest
  {
    Field2(s, 1, 31)
  }

  /** `hour`: 1 to 12, so `00` and `13` to `23` are refused. */
  function Hour(s: string): (r: Option<Parsed<nat>>)
    ensures r.Some? ==> 1 <= r.value.value <= 12 && s == Pad2(r.value.value) + r.value.rest
  {
    Field2(s, 1, 12)
  }

  /** `minute`: below 60. */
  function Minute(s: string): (r: Option<Parsed<nat>>)
    ensures r.Some? ==> r.value.value < 60 && s == Pad2(r.value.value) + r.value.rest
  {
    Field2(s, 0, 59)
  }

  /** `second`: below 60. */
  function SecondField(s: string): (r: Option<Parsed<nat>>)
    ensures r.Some? ==> r.value.value < 60 && s == Pad2(r.value.value) + r.value.rest
  {
    Field2(s, 0, 59)
  }

  /** `submilli`: one to three digits (as many as there are), as milliseconds. */
  function SubMilli(s: string): (r: Option<Parsed<SubSecond>>)
    ensures r.Some? ==> r.value.value.Milli? && r.value.value.millis <= 999
    ensures r.Some? ==> var k := |s| - |r.value.rest|;
      1 <= k <= 3 && s[k..] == r.value.rest && AllDigits(s[..k]) && r.value.value.millis == DigitsValue(s[..k])
  {
    var k := if LeadingDigits(s) < 3 then LeadingDigits(s) else 3;
    if k == 0 then None
    else
      assert AllDigits(s[..k]) by { assert forall i :: 0 <= i < k ==> s[..k][i] == s[..LeadingDigits(s)][i]; }
      DigitsBound(s[..k]);
      Some(Parsed(SubSecond.Milli(DigitsValue(s[..k])), s[k..]))
  }

  /** `submicro`: exactly six digits, as microseconds. */
  function SubMicro(s: string): (r: Option<Parsed<SubSecond>>)
    ensures r.Some? ==> r.value.value.Micro? && r.value.value.micros <= 999_999
    ensures r.Some? ==> 6 <= |s| && AllDigits(s[..6]) && r.value.value.micros == DigitsValue(s[..6]) && r.value.rest == s[6..]
  {
    match DigitN(s, 6)
    case None => None
    case Some(d) =>
      DigitsBound(d.value);
      Some(Parsed(SubSecond.Micro(DigitsValue(d.value)), d.rest))
  }

  /** `subnano`: exactly nine digits, as nanoseconds. */
  function SubNano(s: string): (r: Option<Parsed<SubSecond>>)
    ensures r.Some? ==> r.value.value.Nano? && r.value.value.nanos <= 999_999_999
    ensures r.Some? ==> 9 <= |s| && AllDigits(s[..9]) && r.value.value.nanos == DigitsValue(s[..9]) && r.value.rest == s[9..]
  {
    match DigitN(s, 9)
    case None => None
    case Some(d) =>
      DigitsBound(d.value);
      Some(Parsed(SubSecond.Nano(DigitsValue(d.value)), d.rest))
  }

  function Pow10(n: nat): (r: nat)
    ensures r >= 1
  {
    if n == 0 then 1 else 10 * Pow10(n - 1)
  }

  lemma {:induction false} DigitsBound(d: string)
    requires AllDigits(d)
    ensures DigitsValue(d) < Pow10(|d|)
  {
    if |d| > 0 {
      DigitsBound(d[..|d| - 1]);
    }
  }

  /** A sub-second value is under one second in its own unit. */
  predicate SubSecondInRange(ss: SubSecond) {
    (ss.Milli? ==> ss.millis <= 999) &&
    (ss.Micro? ==> ss.micros <= 999_999) &&
    (ss.Nano? ==> ss.nanos <= 999_999_999)
  }

  /** `alt((subnano, submicro, submilli))`: the longest reading tried first. */
  function SubSecondField(s: string): (r: Option<Parsed<SubSecond>>)
    ensures r.Some? ==> SubSecondInRange(r.value.value)
    ensures SubNano(s).Some? ==> r == SubNano(s)
    ensures SubNano(s).None? && SubMicro(s).Some? ==> r == SubMicro(s)
    ensures SubNano(s).None? && SubMicro(s).None? ==> r == SubMilli(s)
  {
    var nano := SubNano(s);
    if nano.Some? then nano
    else
      var micro := SubMicro(s);
      if micro.Some? then micro else SubMilli(s)
  }

  /**
   * `time`: hour, minute, then optionally the second and, after it, optionally the
   * sub-second, each optionally preceded by a separator.
   */
  function TimeField(s: string): (r: Option<Parsed<Time>>)
    ensures r.Some? ==> TimeInRange(r.value.value)
  {
    match Hour(s)
    case None => None
    case Some(h) =>
      var s1 := OptSep(h.rest);
      match Minute(s1.rest)
      case None => None
      case Some(m) =>
        var s2 := OptSep(m.rest);
        match SecondField(s2.rest)
        case None => Some(Parsed(Time(h.value, s1.value, m.value, None, None, None, None), m.rest))
        case Some(sec) =>
          var s3 := OptSep(sec.rest);
          match SubSecondField(s3.rest)
          case None =>
            Some(Parsed(Time(h.value, s1.value, m.value, s2.value, Some(sec.value), None, None), sec.rest))
          case Some(sub) =>
            Some(Parsed(Time(h.value, s1.value, m.value, s2.value, Some(sec.value), s3.value, Some(sub.value)), sub.rest))
  }

  /** The fields a parsed date can hold: the parser checks each one's range on its own. */
  predicate DateInRange(date: Date) {
    2000 <= date.year <= 2099 && 1 <= date.month <= 12 && 1 <= date.day <= 31
  }

  /** The fields a parsed time can hold; the hour is read on a 12-hour clock. */
  predicate TimeInRange(t: Time) {
    1 <= t.hour <= 12 && t.minute < 60 && (t.second.Some? ==> t.second.value < 60) &&
    (t.subsecond.Some? ==> t.second.Some? && SubSecondInRange(t.subsecond.value))
  }

  /** `datetime`: year, month and day, each optionally separated, then optionally a time. */
  function DateTimeToken(s: string): (r: Option<Parsed<Token>>)
    ensures r.Some? ==> r.value.value.Stamp? && r.value.value.timestamp.Calendar?
    ensures r.Some? ==> var dt := r.value.value.timestamp.dateTime;
      DateInRange(dt.date) && (dt.time.Some? ==> TimeInRange(dt.time.value))
  {
    match DateField(s)
    case None => None
    case Some(d) =>
      var s3 := OptSep(d.rest);
      match TimeField(s3.rest)
      case None => Some(Parsed(Stamp(Calendar(DateTime(d.value, None, None))), d.rest))
      case Some(t) => Some(Parsed(Stamp(Calendar(DateTime(d.value, s3.value, Some(t.value)))), t.rest))
  }

  /** The date part of `datetime`: year, month and day, each optionally separated. */
  function DateField(s: string): (r: Option<Parsed<Date>>)
    ensures r.Some? ==> DateInRange(r.value.value)
  {
    match Year(s)
    case None => None
    case Some(y) =>
      var s1 := OptSep(y.rest);
      match Month(s1.rest)
      case None => None
      case Some(mo) =>
        var s2 := OptSep(mo.rest);
        match Day(s2.rest)
        case None => None
        case Some(d) => Some(Parsed(Date(y.value, s1.value, mo.value, s2.value, d.value), d.rest))
  }

  /** Two consecutive reads: what the first left over is what the second read plus its own rest. */
  lemma ReadThen(s: string, first: string, rest: string, second: string, rest2: string)
    requires s == first + rest && rest == second + rest2
    ensures s == (first + second) + rest2
  {
  }

  /** A date-time without a sub-second part reads back as the text it was read from. */
  lemma DateTimeReadsBack(s: string)
    requires DateTimeToken(s).Some?
    requires var dt := DateTimeToken(s).value.value.timestamp.dateTime;
      dt.time.None? || dt.time.value.subsecond.None?
    ensures s == TokenText(DateTimeToken(s).value.value) + DateTimeToken(s).value.rest
  {
    var d := DateField(s).value;
    var date := d.value;
    DateReadsBack(s);
    var s3 := OptSep(d.rest);
    if TimeField(s3.rest).None? {
      var dt := DateTime(date, None, None);
      assert DateTimeToken(s).value == Parsed(Stamp(Calendar(dt)), d.rest);
      assert SepText(dt.dateSep) == "";
      assert DateTimeText(dt) == DateText(date) + "" + "";
      assert DateTimeText(dt) == DateText(date);
      CalendarTokenText(dt);
    } else {
      var t := TimeField(s3.rest).value;
      var dt := DateTime(date, s3.value, Some(t.value));
      assert DateTimeToken(s).value == Parsed(Stamp(Calendar(dt)), t.rest);
      TimeReadsBack(s3.rest);
      ReadThen(s, DateText(date), d.rest, SepText(s3.value), s3.rest);
      ReadThen(s, DateText(date) + SepText(s3.value), s3.rest, TimeText(t.value), t.rest);
      assert DateTimeText(dt) == DateText(date) + SepText(s3.value) + TimeText(t.value);
      CalendarTokenText(dt);
    }
  }

  /** A date reads back as the text it was read from. */
  lemma DateReadsBack(s: string)
    requires DateField(s).Some?
    ensures s == DateText(DateField(s).value.value) + DateField(s).value.rest
  {
    var y := Year(s).value;
    var s1 := OptSep(y.rest);
    var mo := Month(s1.rest).value;
    var s2 := OptSep(mo.rest);
    var d := Day(s2.rest).value;
    var yearText := FormatSigned(y.value, 2);
    ReadThen(s, yearText, y.rest, SepText(s1.value), s1.rest);
    ReadThen(s, yearText + SepText(s1.value), s1.rest, Pad2(mo.value), mo.rest);
    ReadThen(s, yearText + SepText(s1.value) + Pad2(mo.value), mo.rest, SepText(s2.value), s2.rest);
    ReadThen(s, yearText + SepText(s1.value) + Pad2(mo.value) + SepText(s2.value), s2.rest, Pad2(d.value), d.rest);
  }

  lemma CalendarTokenText(dt: DateTime)
    ensures TokenText(Stamp(Calendar(dt))) == DateTimeText(dt)
  {
  }

  /** A time without a sub-second part reads back as the text it was read from. */
  lemma TimeReadsBack(s: string)
    requires TimeField(s).Some? && TimeField(s).value.value.subsecond.None?
    ensures s == TimeText(TimeField(s).value.value) + TimeField(s).value.rest
  {
    var h := Hour(s).value;
    var s1 := OptSep(h.rest);
    var m := Minute(s1.rest).value;
    var s2 := OptSep(m.rest);
    ReadThen(s, Pad2(h.value), h.rest, SepText(s1.value), s1.rest);
    ReadThen(s, Pad2(h.value) + SepText(s1.value), s1.rest, Pad2(m.value), m.rest);
    var upToMinute := Pad2(h.value) + SepText(s1.value) + Pad2(m.value);
    if SecondField(s2.rest).None? {
      var t := Time(h.value, s1.value, m.value, None, None, None, None);
      assert TimeField(s).value == Parsed(t, m.rest);
      MinuteTimeText(s, t, m.rest);
    } else {
      var sec := SecondField(s2.rest).value;
      var s3 := OptSep(sec.rest);
      if SubSecondField(s3.rest).None? {
        var t := Time(h.value, s1.value, m.value, s2.value, Some(sec.value), None, None);
        assert TimeField(s).value == Parsed(t, sec.rest);
        ReadThen(s, upToMinute, m.rest, SepText(s2.value), s2.rest);
        ReadThen(s, upToMinute + SepText(s2.value), s2.rest, Pad2(sec.value), sec.rest);
        SecondTimeText(s, t, sec.rest);
      }
    }
  }

  lemma MinuteTimeText(s: string, t: Time, rest: string)
    requires t.minuteSep.None? && t.second.None? && t.secondSep.None? && t.subsecond.None?
    requires s == Pad2(t.hour) + SepText(t.hourSep) + Pad2(t.minute) + rest
    ensures s == TimeText(t) + rest
  {
    var upToMinute := Pad2(t.hour) + SepText(t.hourSep) + Pad2(t.minute);
    assert TimeText(t) == upToMinute + "" + "" + "" + "";
  }

  lemma SecondTimeText(s: string, t: Time, rest: string)
    requires t.second.Some? && t.secondSep.None? && t.subsecond.None?
    requires s == Pad2(t.hour) + SepText(t.hourSep) + Pad2(t.minute) + SepText(t.minuteSep) + Pad2(t.second.value) + rest
    ensures s == TimeText(t) + rest
  {
    var upToSecond := Pad2(t.hour) + SepText(t.hourSep) + Pad2(t.minute) + SepText(t.minuteSep) + Pad2(t.second.value);
    assert TimeText(t) == upToSecond + "" + "";
  }

  // ---------------------------------------------------------------------------
  // Epoch timestamps.

  /** The instant `value / unitsPerSecond` seconds after 1970 falls on a date from 2000-01-01 to 2100-01-01. */
  predicate EpochInRange(value: int, unitsPerSecond: nat) {
    MinEpochSeconds * unitsPerSecond <= value < EndEpochSeconds * unitsPerSecond
  }

  /** The leading digits as an `i64`. */
  function EpochDigits(s: string): (r: Option<Parsed<nat>>)
    ensures r.Some? ==> r.value.value <= I64Max
    ensures r.Some? ==> (Digit1(s).Some? && s == Digit1(s).value.value + r.value.rest
      && r.value.value == DigitsValue(Digit1(s).value.value))
  {
    match Digit1(s)
    case None => None
    case Some(d) =>
      match ParseUnsigned(d.value, I64Max)
      case None => None
      case Some(v) => Some(Parsed(v, d.rest))
  }

  /**
   * `epoch_timestamp`: the leading digits read as nanoseconds, microseconds,
   * milliseconds or seconds, in that order, the first unit whose date is in range.
   */
  function EpochTimestampToken(s: string): (r: Option<Parsed<Token>>)
    ensures r.Some? ==> r.value.value.Stamp? && r.value.value.timestamp.Epoch?
    ensures r.Some? ==> var e := r.value.value.timestamp.epoch;
      EpochDigits(s).Some? && EpochValue(e) == EpochDigits(s).value.value && r.value.rest == EpochDigits(s).value.rest &&
      (e.Nano? <==> EpochInRange(EpochValue(e), 1_000_000_000)) &&
      (e.Micro? <==> EpochInRange(EpochValue(e), 1_000_000)) &&
      (e.Milli? <==> EpochInRange(EpochValue(e), 1_000)) &&
      (e.Second? <==> EpochInRange(EpochValue(e), 1))
  {
    match EpochDigits(s)
    case None => None
    case Some(d) =>
      var v := d.value;
      if EpochInRange(v, 1_000_000_000) then Some(Parsed(Stamp(Epoch(EpochTimestamp.Nano(v))), d.rest))
      else if EpochInRange(v, 1_000_000) then Some(Parsed(Stamp(Epoch(EpochTimestamp.Micro(v))), d.rest))
      else if EpochInRange(v, 1_000) then Some(Parsed(Stamp(Epoch(EpochTimestamp.Milli(v))), d.rest))
      else if EpochInRange(v, 1) then Some(Parsed(Stamp(Epoch(Second(v))), d.rest))
      else None
  }

  /** The digits are accepted exactly when some unit puts their date in range. */
  lemma EpochAccepted(s: string)
    requires EpochDigits(s).Some?
    ensures var v := EpochDigits(s).value.value;
      EpochTimestampToken(s).Some? <==>
        EpochInRange(v, 1_000_000_000) || EpochInRange(v, 1_000_000) || EpochInRange(v, 1_000) || EpochInRange(v, 1)
  {
  }

  /** The four ranges do not overlap, so the order the units are tried in never decides the unit. */
  lemma EpochUnitsDisjoint(v: int)
    ensures EpochInRange(v, 1_000_000_000) ==> !EpochInRange(v, 1_000_000) && !EpochInRange(v, 1_000) && !EpochInRange(v, 1)
    ensures EpochInRange(v, 1_000_000) ==> !EpochInRange(v, 1_000) && !EpochInRange(v, 1)
    ensures EpochInRange(v, 1_000) ==> !EpochInRange(v, 1)
  {
  }

  // ---------------------------------------------------------------------------
  // Names, markers and prefixes.

  /** `name`: everything up to the next `.`, at least one character. */
  function NameToken(s: string): (r: Option<Parsed<Token>>)
    ensures r.Some? ==> r.value.value.Name? && |r.value.value.name| > 0 && '.' !in r.value.value.name
    ensures r.Some? ==> s == TokenText(r.value.value) + r.value.rest && |r.value.rest| > 0 && r.value.rest[0] == '.'
    ensures r.None? <==> '.' !in s || s[0] == '.'
  {
    match IndexOf(s, '.')
    case None => None
    case Some(i) =>
      if i == 0 then None
      else
        assert s == s[..i] + s[i..];
        Some(Parsed(Name(s[..i]), s[i..]))
  }

  /** `updown`: `down`, `undo`, `up` or `do`, tried in that order. */
  function UpDownToken(s: string): (r: Option<Parsed<Token>>)
    ensures r.Some? ==> r.value.value.IsDirection() && s == TokenText(r.value.value) + r.value.rest
  {
    if Tag(s, "down").Some? then Some(Parsed(UpDownMark(Down), Tag(s, "down").value))
    else if Tag(s, "undo").Some? then Some(Parsed(DoUndoMark(Undo), Tag(s, "undo").value))
    else if Tag(s, "up").Some? then Some(Parsed(UpDownMark(Up), Tag(s, "up").value))
    else if Tag(s, "do").Some? then Some(Parsed(DoUndoMark(Do), Tag(s, "do").value))
    else None
  }

  /** The number of leading `z` and `Z` characters. */
  function LeadingZs(s: string): (k: nat)
    ensures k <= |s| && (k < |s| ==> s[k] != 'z' && s[k] != 'Z')
    ensures forall i :: 0 <= i < k ==> s[i] == 'z' || s[i] == 'Z'
  {
    if |s| == 0 || (s[0] != 'z' && s[0] != 'Z') then 0 else 1 + LeadingZs(s[1..])
  }

  /** `prefix`: any number of `z`/`Z` and then one `v`/`V`. */
  function PrefixToken(s: string): (r: Option<Parsed<Token>>)
    ensures r.Some? ==> r.value.value.Prefix? && s == TokenText(r.value.value) + r.value.rest
    ensures r.Some? ==> var p := r.value.value.prefix;
      |p| > 0 && (p[|p| - 1] == 'v' || p[|p| - 1] == 'V') && forall i :: 0 <= i < |p| - 1 ==> p[i] == 'z' || p[i] == 'Z'
  {
    var k := LeadingZs(s);
    if k < |s| && (s[k] == 'v' || s[k] == 'V') then
      assert s == s[..k + 1] + s[k + 1..];
      Some(Parsed(Prefix(s[..k + 1]), s[k + 1..]))
    else None
  }

  /** `opt(prefix)`: the prefix tokens read, none or one. */
  function OptPrefix(s: string): (r: Parsed<seq<Token>>)
    ensures s == TokensText(r.value) + r.rest
    ensures NoMarkers(r.value)
  {
    match PrefixToken(s)
    case None =>
      TokensTextEmpty();
      Parsed([], s)
    case Some(p) =>
      TokensTextOne(p.value);
      Parsed([p.value], p.rest)
  }

  lemma TokensTextEmpty()
    ensures TokensText([]) == ""
  {
  }

  lemma TokensTextOne(t: Token)
    ensures TokensText([t]) == TokenText(t)
  {
    TokensTextCons(t, []);
    assert [t] + [] == [t];
    TokensTextEmpty();
  }

  // ---------------------------------------------------------------------------
  // Whole segments and paths.

  /** `alt((epoch_timestamp, random_number))`. */
  function EpochOrRandom(s: string): (r: Option<Parsed<Token>>)
    ensures r.Some? ==> r.value.value.Stamp? || r.value.value.RandomNumber?
  {
    var e := EpochTimestampToken(s);
    if e.Some? then e else RandomNumberToken(s)
  }

  /** `alt((datetime, epoch_timestamp, semver, padded_number))`. */
  function LeadingNumber(s: string): (r: Option<Parsed<Token>>)
    ensures r.Some? ==> r.value.value.Stamp? || r.value.value.Version? || r.value.value.Padded?
  {
    if DateTimeToken(s).Some? then DateTimeToken(s)
    else if EpochTimestampToken(s).Some? then EpochTimestampToken(s)
    else if SemverToken(s).Some? then SemverToken(s)
    else PaddedNumberToken(s)
  }

  lemma NoMarkersConcat(a: seq<Token>, b: seq<Token>)
    requires NoMarkers(a) && NoMarkers(b)
    ensures NoMarkers(a + b)
  {
    assert forall k :: |a| <= k < |a + b| ==> (a + b)[k] == b[k - |a|];
  }

  /**
   * `number`: a date-time, an epoch timestamp, a version or a padded number, then
   * optionally separators and an epoch timestamp or random number.
   */
  function NumberTokens(s: string): (r: Option<Parsed<seq<Token>>>)
    ensures r.Some? ==> |r.value.value| > 0 && NoMarkers(r.value.value)
  {
    match LeadingNumber(s)
    case None => None
    case Some(t1) => Some(TrailingNumber(t1.value, t1.rest))
  }

  /** The optional `(separators, alt((epoch_timestamp, random_number)))` after the leading number. */
  function TrailingNumber(first: Token, s: string): (r: Parsed<seq<Token>>)
    requires !first.IsDirection()
    ensures |r.value| > 0 && r.value[0] == first && NoMarkers(r.value)
  {
    var seps := Seps(s);
    match EpochOrRandom(seps.rest)
    case None => Parsed([first], s)
    case Some(t2) =>
      NumberPair(first, seps.value, t2.value);
      Parsed([first] + seps.value + [t2.value], t2.rest)
  }

  lemma NumberPair(first: Token, seps: seq<Token>, second: Token)
    requires !first.IsDirection() && NoMarkers(seps) && !second.IsDirection()
    ensures NoMarkers([first] + seps + [second])
  {
    NoMarkersConcat([first], seps);
    NoMarkersConcat([first] + seps, [second]);
  }

  /** `dir_ident`: prefix, number, then optionally at least one separator and a name. */
  function DirIdent(s: string): (r: Option<Parsed<Segment>>)
    ensures r.Some? ==> r.value.value.kind == Dir && NoMarkers(r.value.value.tokens)
  {
    var p := OptPrefix(s);
    match NumberTokens(p.rest)
    case None => None
    case Some(n) =>
      var named := OptNamed(n.rest, 1);
      NoMarkersConcat(p.value, n.value);
      NoMarkersConcat(p.value + n.value, named.value);
      Some(Parsed(Segment(Dir, p.value + n.value + named.value), named.rest))
  }

  /** `file_ext`: `.sql`. */
  function FileExt(s: string): (r: Option<string>)
    ensures r.Some? ==> s == ".sql" + r.value
  {
    Tag(s, ".sql")
  }

  /** `file_nonident`: a bare marker and the extension, as in `up.sql`. */
  function FileNonIdent(s: string): (r: Option<Parsed<Segment>>)
    ensures r.Some? ==> (r.value.value.kind == File && |r.value.value.tokens| == 2
      && r.value.value.tokens[0].IsDirection() && r.value.value.tokens[1] == Extension)
  {
    match UpDownToken(s)
    case None => None
    case Some(u) =>
      match FileExt(u.rest)
      case None => None
      case Some(rest) => Some(Parsed(Segment(File, [u.value, Extension]), rest))
  }

  /**
   * `file_ident`: prefix, number, optionally separators and a name, optionally `.` and
   * a marker, then the extension.
   */
  function FileIdent(s: string): (r: Option<Parsed<Segment>>)
    ensures r.Some? ==> FileShaped(r.value.value)
  {
    var p := OptPrefix(s);
    match NumberTokens(p.rest)
    case None => None
    case Some(n) =>
      var named := OptNamed(n.rest, 0);
      var marked := OptMarker(named.rest);
      match FileExt(marked.rest)
      case None => None
      case Some(rest) =>
        NoMarkersConcat(p.value, n.value);
        NoMarkersConcat(p.value + n.value, named.value);
        MarkerBeforeExtension(p.value + n.value + named.value, marked.value);
        Some(Parsed(Segment(File, p.value + n.value + named.value + marked.value + [Extension]), rest))
  }

  /**
   * `opt((repeat(minSeps.., sep), name))`: nothing is consumed unless at least `minSeps`
   * separators and a name follow.
   */
  function OptNamed(s: string, minSeps: nat): (r: Parsed<seq<Token>>)
    ensures NoMarkers(r.value)
  {
    var seps := Seps(s);
    var name := NameToken(seps.rest);
    if |seps.value| >= minSeps && name.Some? then
      NoMarkersConcat(seps.value, [name.value.value]);
      Parsed(seps.value + [name.value.value], name.value.rest)
    else Parsed([], s)
  }

  /** `opt((dot, updown))` of `file_ident`. */
  function OptMarker(s: string): (r: Parsed<seq<Token>>)
    ensures r.value == [] || (|r.value| == 2 && r.value[0] == Dot && r.value[1].IsDirection())
    ensures r.value == [] ==> r.rest == s
  {
    if Tag(s, ".").Some? && UpDownToken(Tag(s, ".").value).Some? then
      var u := UpDownToken(Tag(s, ".").value).value;
      Parsed([Dot, u.value], u.rest)
    else Parsed([], s)
  }

  lemma MarkerBeforeExtension(body: seq<Token>, marked: seq<Token>)
    requires NoMarkers(body)
    requires marked == [] || (|marked| == 2 && marked[0] == Dot)
    ensures FileShaped(Segment(File, body + marked + [Extension]))
  {
    var ts := body + marked + [Extension];
    assert forall k :: 0 <= k < |body| ==> ts[k] == body[k];
    assert forall k :: |body| <= k < |body| + |marked| ==> ts[k] == marked[k - |body|];
  }

  /** `path_sep`: `/` or `\`. */
  function PathSep(s: string): (r: Option<string>)
    ensures r.Some? ==> |s| > 0 && r.value == s[1..]
  {
    if |s| > 0 && (s[0] == '/' || s[0] == '\\') then Some(s[1..]) else None
  }

  /**
   * `path`: a directory, a path separator and a bare marker file, or else a file on its
   * own. The separator itself is not kept.
   */
  function PathSegments(s: string): (r: Option<Parsed<seq<Segment>>>)
    ensures r.Some? ==> ParsedShape(r.value.value)
  {
    match DirThenMarker(s)
    case Some(two) => Some(two)
    case None =>
      match FileIdent(s)
      case None => None
      case Some(file) => Some(Parsed([file.value], file.rest))
  }

  /** The first alternative of `path`: `(dir_ident, path_sep, file_nonident)`. */
  function DirThenMarker(s: string): (r: Option<Parsed<seq<Segment>>>)
    ensures r.Some? ==> |r.value.value| == 2 && ParsedShape(r.value.value)
  {
    match DirIdent(s)
    case None => None
    case Some(dir) =>
      match PathSep(dir.rest)
      case None => None
      case Some(afterSep) =>
        match FileNonIdent(afterSep)
        case None => None
        case Some(file) =>
          DirAndMarkerShaped(dir.value, file.value);
          Some(Parsed([dir.value, file.value], file.rest))
  }

  lemma DirAndMarkerShaped(dir: Segment, file: Segment)
    requires dir.kind == Dir && NoMarkers(dir.tokens)
    requires file.kind == File && |file.tokens| == 2 && file.tokens[0].IsDirection() && file.tokens[1] == Extension
    ensures ParsedShape([dir, file])
  {
  }

  /** `parse`: the path must be read to its end. */
  function Parse(s: string): (r: Option<PathTemplate>)
    ensures r.Some? ==> ParsedShape(r.value.segments)
  {
    match PathSegments(s)
    case None => None
    case Some(p) =>
      if p.rest == "" then
        Some(PathTemplate(p.value))
      else None
  }
}
