/**
 * The token model of a migration path: a path template is a list of segments (a
 * directory and a file, or a file alone), each a list of tokens (prefix, padded number,
 * semantic version, timestamp, name, up/down marker, separators, `.sql` extension).
 * Also the text forms of the numeric tokens and `with_up_down`.
 */
module PathAst {
  import opened Wrappers
  import opened Text

  const U32Max: nat := 0xFFFF_FFFF
  /** `usize` on a 64-bit target. */
  const UsizeMax: nat := 0xFFFF_FFFF_FFFF_FFFF
  const I64Min: int := -0x8000_0000_0000_0000
  const I64Max: int := 0x7FFF_FFFF_FFFF_FFFF

  datatype UpDown = Up | Down

  /** `do` / `undo`, an alias of up / down. */
  datatype DoUndo = Do | Undo

  /** The direction a `do` / `undo` marker stands for. */
  function DirectionOf(d: DoUndo): (r: UpDown)
    ensures r == Up <==> d == Do
  {
    match d
    case Do => Up
    case Undo => Down
  }

  function UpDownFromStr(s: string): (r: Option<UpDown>)
    ensures r.Some? <==> s == "up" || s == "down"
  {
    if s == "up" then Some(Up) else if s == "down" then Some(Down) else None
  }

  function DoUndoFromStr(s: string): (r: Option<DoUndo>)
    ensures r.Some? <==> s == "do" || s == "undo"
  {
    if s == "do" then Some(Do) else if s == "undo" then Some(Undo) else None
  }

  // ---------------------------------------------------------------------------
  // Padded numbers.

  /** A counter written with leading zeros: `0042` has width 4 and number 42. */
  datatype PaddedNumber = PaddedNumber(width: nat, number: nat)

  /** `PaddedNumber::from_str`: the width is the length of the text, the number its value as a `usize`. */
  function PaddedNumberFromStr(s: string): (r: Option<PaddedNumber>)
    ensures r.Some? ==> r.value.width == |s| && r.value.number <= UsizeMax
    ensures AllDigits(s) && |s| > 0 && DigitsValue(s) <= UsizeMax ==> r.Some?
  {
    match ParseUnsigned(s, UsizeMax)
    case Some(n) => Some(PaddedNumber(|s|, n))
    case None => None
  }

  /** The text of a padded number: its value zero-padded to its width. */
  function PaddedText(p: PaddedNumber): string {
    PadLeft(Decimal(p.number), p.width)
  }

  /** A digit string read as a padded number prints back to itself. */
  lemma PaddedNumberRoundTrip(s: string)
    requires AllDigits(s) && |s| > 0 && DigitsValue(s) <= UsizeMax
    ensures PaddedNumberFromStr(s).Some? && PaddedText(PaddedNumberFromStr(s).value) == s
  {
    ParsePrintRoundTrip(s, UsizeMax);
  }

  // ---------------------------------------------------------------------------
  // Semantic versions.

  /** `major.minor.patch`, each number remembered with the width it was written in. */
  datatype Semver = Semver(major: nat, minor: nat, patch: nat, widths: (nat, nat, nat))

  /** `Semver::default()`: `000000.000001.00`. */
  const DefaultSemver := Semver(0, 1, 0, (6, 6, 2))

  /** `Display for Semver`: each number zero-padded to its width, separated by dots. */
  function SemverText(v: Semver): string {
    PadLeft(Decimal(v.major), v.widths.0) + "." +
    PadLeft(Decimal(v.minor), v.widths.1) + "." +
    PadLeft(Decimal(v.patch), v.widths.2)
  }

  /**
   * `Semver::from_str`: the text split at its first two dots into exactly three pieces,
   * each a `u32`; the widths are the pieces' lengths.
   */
  function SemverFromStr(s: string): (r: Option<Semver>)
    ensures r.Some? ==> |SplitN(s, '.', 3)| == 3
    ensures r.Some? ==> r.value.major <= U32Max && r.value.minor <= U32Max && r.value.patch <= U32Max
  {
    SemverOfParts(SplitN(s, '.', 3))
  }

  /** Every piece must be a `u32` (the first failure wins), and there must be three of them. */
  function SemverOfParts(parts: seq<string>): (r: Option<Semver>)
    ensures r.Some? ==> |parts| == 3
    ensures r.Some? ==> r.value.major <= U32Max && r.value.minor <= U32Max && r.value.patch <= U32Max
  {
    if exists i :: 0 <= i < |parts| && ParseUnsigned(parts[i], U32Max).None? then None
    else if |parts| != 3 then None
    else
      Some(Semver(ParseUnsigned(parts[0], U32Max).value,
                  ParseUnsigned(parts[1], U32Max).value,
                  ParseUnsigned(parts[2], U32Max).value,
                  (|parts[0]|, |parts[1]|, |parts[2]|)))
  }

  /**
   * `increment_minor`: the next minor version, patch reset to zero, major and widths kept.
   * `u32` addition wraps as in a release build.
   */
  function IncrementMinor(v: Semver): (r: Semver)
    ensures r.major == v.major && r.patch == 0 && r.widths == v.widths
    ensures v.minor < U32Max ==> r.minor == v.minor + 1
    ensures v.minor == U32Max ==> r.minor == 0
  {
    Semver(v.major, (v.minor + 1) % (U32Max + 1), 0, v.widths)
  }

  lemma ThreePieces(s: string)
    requires |SplitN(s, '.', 3)| == 3
    ensures var parts := SplitN(s, '.', 3);
      s == parts[0] + "." + parts[1] + "." + parts[2] && '.' !in parts[0] && '.' !in parts[1]
  {
    var parts := SplitN(s, '.', 3);
    SplitNJoin(s, '.', 3);
    SplitNPieces(s, '.', 3);
    JoinThree(parts, ".");
  }

  /** One piece of a parsed version, read without a '+' sign, prints back to itself. */
  lemma PiecePrintParse(piece: string)
    requires ParseUnsigned(piece, U32Max).Some? && '+' !in piece
    ensures PadLeft(Decimal(ParseUnsigned(piece, U32Max).value), |piece|) == piece
  {
    UnsignedDigits(piece, U32Max);
    ParsePrintRoundTrip(piece, U32Max);
  }

  /** A version the parser accepts, written without '+' signs, prints back to its text. */
  lemma SemverParsePrint(s: string)
    requires SemverFromStr(s).Some? && '+' !in s
    ensures SemverText(SemverFromStr(s).value) == s
  {
    var parts := SplitN(s, '.', 3);
    ThreePieces(s);
    assert s == parts[0] + "." + parts[1] + "." + parts[2];
    assert ParseUnsigned(parts[0], U32Max).Some?;
    assert ParseUnsigned(parts[1], U32Max).Some?;
    assert ParseUnsigned(parts[2], U32Max).Some?;
    PiecePrintParse(parts[0]);
    PiecePrintParse(parts[1]);
    PiecePrintParse(parts[2]);
  }

  /** Three digit strings within `u32`, joined by dots, parse to their values and widths. */
  lemma SemverPrintParse(a: string, b: string, c: string)
    requires |a| > 0 && |b| > 0 && |c| > 0 && AllDigits(a) && AllDigits(b) && AllDigits(c)
    requires DigitsValue(a) <= U32Max && DigitsValue(b) <= U32Max && DigitsValue(c) <= U32Max
    ensures SemverFromStr(a + "." + b + "." + c)
         == Some(Semver(DigitsValue(a), DigitsValue(b), DigitsValue(c), (|a|, |b|, |c|)))
  {
    SplitThree(a, b, c);
    ParseDigits(a, U32Max);
    ParseDigits(b, U32Max);
    ParseDigits(c, U32Max);
    SemverFromParts(a + "." + b + "." + c, a, b, c);
  }

  /** A string that splits into three pieces, each a number within `u32`, is that version. */
  lemma SemverFromParts(s: string, a: string, b: string, c: string)
    requires SplitN(s, '.', 3) == [a, b, c]
    requires ParseUnsigned(a, U32Max).Some? && ParseUnsigned(b, U32Max).Some? && ParseUnsigned(c, U32Max).Some?
    ensures SemverFromStr(s) == Some(Semver(ParseUnsigned(a, U32Max).value, ParseUnsigned(b, U32Max).value,
      ParseUnsigned(c, U32Max).value, (|a|, |b|, |c|)))
  {
    var parts := [a, b, c];
    assert forall i :: 0 <= i < |parts| ==> ParseUnsigned(parts[i], U32Max).Some?;
    assert SemverOfParts(parts).Some?;
  }

  lemma SplitThree(a: string, b: string, c: string)
    requires AllDigits(a) && AllDigits(b)
    ensures SplitN(a + "." + b + "." + c, '.', 3) == [a, b, c]
  {
    var s := a + "." + b + "." + c;
    var tail := b + "." + c;
    NoDotInDigits(a);
    NoDotInDigits(b);
    assert s == a + ("." + tail);
    assert s[..|a|] == a && s[|a|] == '.' && s[|a| + 1..] == tail;
    assert tail[..|b|] == b && tail[|b|] == '.' && tail[|b| + 1..] == c;
    IndexOfFirst(s, '.', |a|);
    IndexOfFirst(tail, '.', |b|);
    assert SplitN(tail, '.', 2) == [b] + [c];
  }

  lemma NoDotInDigits(d: string)
    requires AllDigits(d)
    ensures '.' !in d
  {
    assert forall k :: 0 <= k < |d| ==> d[k] != '.';
  }

  // ---------------------------------------------------------------------------
  // Timestamps.

  datatype EpochTimestamp =
    | Second(seconds: int)
    | Milli(millis: int)
    | Micro(micros: int)
    | Nano(nanos: int)

  /** The digits after the seconds: 1 to 3 for milliseconds, 6 for micro-, 9 for nanoseconds. */
  datatype SubSecond =
    | Milli(millis: nat)
    | Micro(micros: nat)
    | Nano(nanos: nat)

  /** A calendar date; the separators are the literal text written between the fields. */
  datatype Date = Date(year: int, yearSep: Option<string>, month: nat, monthSep: Option<string>, day: nat)

  datatype Time = Time(
    hour: nat, hourSep: Option<string>,
    minute: nat, minuteSep: Option<string>,
    second: Option<nat>, secondSep: Option<string>,
    subsecond: Option<SubSecond>)

  datatype DateTime = DateTime(date: Date, dateSep: Option<string>, time: Option<Time>)

  datatype Timestamp =
    | Epoch(epoch: EpochTimestamp)
    | Calendar(dateTime: DateTime)

  // ---------------------------------------------------------------------------
  // Tokens, segments and templates.

  datatype Token =
    | Prefix(prefix: string)
    | Padded(padded: PaddedNumber)
    | RandomNumber(random: nat)
    | Version(version: Semver)
    | Stamp(timestamp: Timestamp)
    | Name(name: string)
    | UpDownMark(upDown: UpDown)
    | DoUndoMark(doUndo: DoUndo)
    | Underscore
    | Dot
    | Dash
    | Extension
  {
    /** An up/down or do/undo marker. */
    predicate IsDirection() {
      UpDownMark? || DoUndoMark?
    }
  }

  datatype SegmentKind = Dir | File

  datatype Segment = Segment(kind: SegmentKind, tokens: seq<Token>)

  datatype PathTemplate = PathTemplate(segments: seq<Segment>)

  /** `PathTemplate::default()`: `0_generated_migration.up.sql` with an epoch-seconds timestamp. */
  const DefaultTemplate := PathTemplate([Segment(File, [
    Stamp(Epoch(Second(0))), Underscore, Name("generated_migration"), Dot, UpDownMark(Up), Extension])])

  /** None of the tokens is an up/down or do/undo marker. */
  predicate NoMarkers(tokens: seq<Token>) {
    forall k :: 0 <= k < |tokens| ==> !tokens[k].IsDirection()
  }

  /**
   * A file segment as the parser builds it: it ends in the extension, and a marker, if
   * there is one, comes just before that.
   */
  predicate FileShaped(seg: Segment) {
    var ts := seg.tokens;
    seg.kind == File && |ts| > 0 && ts[|ts| - 1] == Extension &&
    forall k :: 0 <= k < |ts| && ts[k].IsDirection() ==> k == |ts| - 2
  }

  /** The segments of a parsed path: a file, possibly after a directory without markers. */
  predicate ParsedShape(segments: seq<Segment>) {
    1 <= |segments| <= 2 && FileShaped(segments[|segments| - 1]) &&
    (|segments| == 2 ==> segments[0].kind == Dir && NoMarkers(segments[0].tokens))
  }

  /** `includes_up_down`: some segment holds an up/down or do/undo marker. */
  predicate IncludesUpDown(t: PathTemplate) {
    exists i, j :: 0 <= i < |t.segments| && 0 <= j < |t.segments[i].tokens| && t.segments[i].tokens[j].IsDirection()
  }

  /** The last segment's tokens after `with_up_down`. */
  function WithUpDownTokens(tokens: seq<Token>): (r: seq<Token>)
    ensures |r| > 0
  {
    var ext := if |tokens| > 0 then tokens[|tokens| - 1] else Extension;
    var rest := if |tokens| > 0 then tokens[..|tokens| - 1] else [];
    if |rest| > 0 && rest[|rest| - 1].IsDirection() then rest + [ext]
    else rest + [Dot, UpDownMark(Up), ext]
  }

  /** `with_up_down`: the template with an `.up` marker before the last token of its last segment, unless one is there. */
  function WithUpDownSpec(t: PathTemplate): PathTemplate {
    if |t.segments| == 0 then t
    else
      var last := t.segments[|t.segments| - 1];
      PathTemplate(t.segments[|t.segments| - 1 := Segment(last.kind, WithUpDownTokens(last.tokens))])
  }

  /**
   * `with_up_down`, step by step: pop the last token of the last segment (an extension
   * if there is none), push `.` and `up` unless the new last token is already a marker,
   * then push the popped token back.
   */
  method WithUpDown(t: PathTemplate) returns (r: PathTemplate)
    ensures r == WithUpDownSpec(t)
    ensures |r.segments| == |t.segments|
    ensures forall i :: 0 <= i < |t.segments| - 1 ==> r.segments[i] == t.segments[i]
  {
    var segments := t.segments;
    if |segments| > 0 {
      var s := segments[|segments| - 1];
      var tokens := s.tokens;
      var ext := Extension;
      if |tokens| > 0 {
        ext := tokens[|tokens| - 1];
        tokens := tokens[..|tokens| - 1];
      }
      if !(|tokens| > 0 && tokens[|tokens| - 1].IsDirection()) {
        tokens := tokens + [Dot];
        tokens := tokens + [UpDownMark(Up)];
      }
      tokens := tokens + [ext];
      assert tokens == WithUpDownTokens(s.tokens);
      segments := segments[|segments| - 1 := Segment(s.kind, tokens)];
    }
    r := PathTemplate(segments);
  }

  // ---------------------------------------------------------------------------
  // The text a template stands for.

  function UpDownText(d: UpDown): string {
    match d
    case Up => "up"
    case Down => "down"
  }

  function DoUndoText(d: DoUndo): string {
    match d
    case Do => "do"
    case Undo => "undo"
  }

  /** `{:02}` of an unsigned field. */
  function Pad2(n: nat): string {
    PadLeft(Decimal(n), 2)
  }

  /** An optional literal separator; absent means nothing was written. */
  function SepText(sep: Option<string>): string {
    sep.UnwrapOr("")
  }

  /** The digits of a sub-second field, printed without padding. */
  function SubSecondValue(ss: SubSecond): nat {
    match ss
    case Milli(v) => v
    case Micro(v) => v
    case Nano(v) => v
  }

  function DateText(d: Date): string {
    FormatSigned(d.year, 2) + SepText(d.yearSep) + Pad2(d.month) + SepText(d.monthSep) + Pad2(d.day)
  }

  function TimeText(t: Time): string {
    Pad2(t.hour) + SepText(t.hourSep) + Pad2(t.minute) + SepText(t.minuteSep) +
    (if t.second.Some? then Pad2(t.second.value) else "") + SepText(t.secondSep) +
    (if t.subsecond.Some? then Decimal(SubSecondValue(t.subsecond.value)) else "")
  }

  function DateTimeText(dt: DateTime): string {
    DateText(dt.date) + SepText(dt.dateSep) + (if dt.time.Some? then TimeText(dt.time.value) else "")
  }

  function EpochValue(e: EpochTimestamp): int {
    match e
    case Second(v) => v
    case Milli(v) => v
    case Micro(v) => v
    case Nano(v) => v
  }

  function TimestampText(ts: Timestamp): string {
    match ts
    case Epoch(e) => IntToString(EpochValue(e))
    case Calendar(dt) => DateTimeText(dt)
  }

  /** The text a token stands for, from the values it holds. */
  function TokenText(tok: Token): string {
    match tok
    case Prefix(p) => p
    case Padded(p) => PaddedText(p)
    case RandomNumber(n) => Decimal(n)
    case Version(v) => SemverText(v)
    case Stamp(ts) => TimestampText(ts)
    case Name(n) => n
    case UpDownMark(d) => UpDownText(d)
    case DoUndoMark(d) => DoUndoText(d)
    case Underscore => "_"
    case Dot => "."
    case Dash => "-"
    case Extension => ".sql"
  }

  function TokensText(tokens: seq<Token>): string {
    Concat(seq(|tokens|, i requires 0 <= i < |tokens| => TokenText(tokens[i])))
  }

  /** The text of each segment of a template. */
  function SegmentTexts(t: PathTemplate): (r: seq<string>)
    ensures |r| == |t.segments|
  {
    seq(|t.segments|, i requires 0 <= i < |t.segments| => TokensText(t.segments[i].tokens))
  }

  /** The path a template stands for: its segments' texts separated by `/`. */
  function PathText(t: PathTemplate): string {
    Join(SegmentTexts(t), "/")
  }

  // ---------------------------------------------------------------------------
  // Properties of `with_up_down`.

  /**
   * Only the last segment changes: it keeps its kind and its final token (an extension
   * stands in when it had none). When a marker already stands just before that final
   * token the segment stays as it was; otherwise `.` `up` is inserted there.
   */
  lemma WithUpDownShape(t: PathTemplate)
    requires |t.segments| > 0
    ensures var r := WithUpDownSpec(t);
      var n := |t.segments| - 1;
      var before, after := t.segments[n].tokens, r.segments[n].tokens;
      var ext := if |before| > 0 then before[|before| - 1] else Extension;
      var rest := if |before| > 0 then before[..|before| - 1] else [];
      |r.segments| == |t.segments| &&
      (forall i :: 0 <= i < n ==> r.segments[i] == t.segments[i]) &&
      r.segments[n].kind == t.segments[n].kind &&
      after[|after| - 1] == ext &&
      (|rest| > 0 && rest[|rest| - 1].IsDirection() ==> after == before) &&
      (!(|rest| > 0 && rest[|rest| - 1].IsDirection()) ==> after == rest + [Dot, UpDownMark(Up), ext])
  {
    var before := t.segments[|t.segments| - 1].tokens;
    if |before| > 0 {
      assert before[..|before| - 1] + [before[|before| - 1]] == before;
    }
  }

  /** Afterwards the template includes a marker, as long as it has a segment at all. */
  lemma WithUpDownIncludes(t: PathTemplate)
    requires |t.segments| > 0
    ensures IncludesUpDown(WithUpDownSpec(t))
  {
    var r := WithUpDownSpec(t);
    var n := |t.segments| - 1;
    var after := r.segments[n].tokens;
    assert after[|after| - 2].IsDirection();
  }

  /** Applying `with_up_down` twice is the same as applying it once. */
  lemma WithUpDownIdempotent(t: PathTemplate)
    ensures WithUpDownSpec(WithUpDownSpec(t)) == WithUpDownSpec(t)
  {
    if |t.segments| > 0 {
      var n := |t.segments| - 1;
      var once := WithUpDownTokens(t.segments[n].tokens);
      assert once[..|once| - 1][|once| - 2] == once[|once| - 2];
      assert once[..|once| - 1] + [once[|once| - 1]] == once;
    }
  }

  /** A template whose last segment already ends in a marker and a final token is left alone. */
  lemma WithUpDownKeepsMarked(t: PathTemplate)
    requires |t.segments| > 0
    requires var tokens := t.segments[|t.segments| - 1].tokens;
      |tokens| >= 2 && tokens[|tokens| - 2].IsDirection()
    ensures WithUpDownSpec(t) == t
  {
    var n := |t.segments| - 1;
    var tokens := t.segments[n].tokens;
    assert tokens[..|tokens| - 1] + [tokens[|tokens| - 1]] == tokens;
    assert t.segments[n := Segment(t.segments[n].kind, tokens)] == t.segments;
  }

  /** The default template already names its direction. */
  lemma DefaultTemplateMarked()
    ensures IncludesUpDown(DefaultTemplate) && WithUpDownSpec(DefaultTemplate) == DefaultTemplate
  {
    var tokens := DefaultTemplate.segments[0].tokens;
    assert tokens[4].IsDirection();
    WithUpDownKeepsMarked(DefaultTemplate);
  }
}
