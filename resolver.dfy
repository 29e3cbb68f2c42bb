/**
 * Turning a path template back into a file name. Every token draws its text from the
 * data of the migration being written: its timestamp, name, direction, counter, random
 * number and version.
 */
module PathResolver {
  import opened Wrappers
  import opened Text
  import opened PathAst

  /**
   * A UTC instant as the resolver reads it: nanoseconds since 1970-01-01T00:00:00Z and
   * the calendar fields of the same instant. Which fields go with which count is the date
   * library's business; `Denotes` says when an instant is the one a timestamp token names.
   */
  datatype Instant = Instant(
    epochNanos: int,
    year: int, month: nat, day: nat,
    hour: nat, minute: nat, second: nat, nanosecond: nat)

  /** The default timestamp, 1970-01-01T00:00:00Z. */
  const UnixEpoch := Instant(0, 1970, 1, 1, 0, 0, 0, 0)

  /** The values a template's tokens are filled in with. */
  datatype TemplateData = TemplateData(
    timestamp: Instant,
    name: string,
    upDown: Option<UpDown>,
    counter: Option<nat>,
    random: Option<nat>,
    semver: Option<Semver>)

  /** `TemplateData::default()`. */
  const DefaultData := TemplateData(UnixEpoch, "", None, None, None, None)

  // ---------------------------------------------------------------------------
  // Timestamps. Whole units since 1970 are rounded down, as the date library does.

  function ResolveEpoch(e: EpochTimestamp, inst: Instant): string {
    match e
    case Second(_) => IntToString(inst.epochNanos / 1_000_000_000)
    case Milli(_) => IntToString(inst.epochNanos / 1_000_000)
    case Micro(_) => IntToString(inst.epochNanos / 1_000)
    case Nano(_) => IntToString(if I64Min <= inst.epochNanos <= I64Max then inst.epochNanos else 0)
  }

  /** The fraction of the second in the unit the token was written in, without leading zeros. */
  function ResolveSubSecond(ss: SubSecond, inst: Instant): string {
    match ss
    case Milli(_) => Decimal(inst.nanosecond / 1_000_000)
    case Micro(_) => Decimal(inst.nanosecond / 1_000)
    case Nano(_) => Decimal(inst.nanosecond)
  }

  function ResolveDate(d: Date, inst: Instant): string {
    FormatSigned(inst.year, 2) + SepText(d.yearSep) + Pad2(inst.month) + SepText(d.monthSep) + Pad2(inst.day)
  }

  /** The second is written only when the token had one, and likewise the sub-second part. */
  function ResolveTime(t: Time, inst: Instant): string {
    Pad2(inst.hour) + SepText(t.hourSep) + Pad2(inst.minute) + SepText(t.minuteSep) +
    (if t.second.Some? then Pad2(inst.second) else "") + SepText(t.secondSep) +
    (if t.subsecond.Some? then ResolveSubSecond(t.subsecond.value, inst) else "")
  }

  function ResolveDateTime(dt: DateTime, inst: Instant): string {
    ResolveDate(dt.date, inst) + SepText(dt.dateSep) + (if dt.time.Some? then ResolveTime(dt.time.value, inst) else "")
  }

  function ResolveTimestamp(ts: Timestamp, inst: Instant): string {
    match ts
    case Epoch(e) => ResolveEpoch(e, inst)
    case Calendar(dt) => ResolveDateTime(dt, inst)
  }

  // ---------------------------------------------------------------------------
  // Numbers and markers.

  /** The counter, or else one more than the template's own number (wrapping as `usize`). */
  function NextCounter(p: PaddedNumber, d: TemplateData): nat {
    if d.counter.Some? then d.counter.value else (p.number + 1) % (UsizeMax + 1)
  }

  /** The counter written with zeros in front up to the template's width; its digits read back as the counter. */
  function ResolvePadded(p: PaddedNumber, d: TemplateData): (r: string)
    ensures |r| >= p.width && |r| > 0 && AllDigits(r) && DigitsValue(r) == NextCounter(p, d)
  {
    PaddedDigits(NextCounter(p, d), p.width);
    PadLeft(Decimal(NextCounter(p, d)), p.width)
  }

  /** The data's version, or else the template's own with its minor number incremented. */
  function ResolveSemver(v: Semver, d: TemplateData): string {
    SemverText(if d.semver.Some? then d.semver.value else IncrementMinor(v))
  }

  /** `up` or `down` as the data says, and nothing when it does not say. */
  function ResolveUpDown(d: TemplateData): (r: string)
    ensures r == "" <==> d.upDown.None?
    ensures d.upDown.Some? ==> UpDownFromStr(r) == d.upDown
  {
    match d.upDown
    case None => ""
    case Some(u) => UpDownText(u)
  }

  /** `do` for up and `undo` for down, and nothing when the data does not say. */
  function ResolveDoUndo(d: TemplateData): (r: string)
    ensures r == "" <==> d.upDown.None?
    ensures d.upDown.Some? ==> DoUndoFromStr(r).Some? && DirectionOf(DoUndoFromStr(r).value) == d.upDown.value
  {
    match d.upDown
    case None => ""
    case Some(Up) => "do"
    case Some(Down) => "undo"
  }

  function ResolveToken(tok: Token, d: TemplateData): string {
    match tok
    case Prefix(p) => p
    case Padded(p) => ResolvePadded(p, d)
    case RandomNumber(_) => if d.random.Some? then Decimal(d.random.value) else IntToString(d.timestamp.epochNanos / 1_000)
    case Version(v) => ResolveSemver(v, d)
    case Stamp(ts) => ResolveTimestamp(ts, d.timestamp)
    case Name(_) => d.name
    case UpDownMark(_) => ResolveUpDown(d)
    case DoUndoMark(_) => ResolveDoUndo(d)
    case Underscore => "_"
    case Dot => "."
    case Dash => "-"
    case Extension => ".sql"
  }

  // ---------------------------------------------------------------------------
  // Segments and whole templates.

  /** The `.` at `i` is left out: the data names no direction and an `up`/`down` marker follows it. */
  predicate SkipsDot(tokens: seq<Token>, i: nat, d: TemplateData)
    requires i < |tokens|
  {
    d.upDown.None? && tokens[i] == Dot && i + 1 < |tokens| && tokens[i + 1].UpDownMark?
  }

  /** What each token of a segment contributes. */
  function SegmentPieces(tokens: seq<Token>, d: TemplateData): (r: seq<string>)
    ensures |r| == |tokens|
  {
    seq(|tokens|, i requires 0 <= i < |tokens| => if SkipsDot(tokens, i, d) then "" else ResolveToken(tokens[i], d))
  }

  function ResolveSegment(s: Segment, d: TemplateData): string {
    Concat(SegmentPieces(s.tokens, d))
  }

  function ResolvedSegments(t: PathTemplate, d: TemplateData): (r: seq<string>)
    ensures |r| == |t.segments|
  {
    seq(|t.segments|, i requires 0 <= i < |t.segments| => ResolveSegment(t.segments[i], d))
  }

  /** `PathTemplate::resolve` as written: the segments' texts one after another, with nothing between them. */
  function Resolve(t: PathTemplate, d: TemplateData): string {
    Concat(ResolvedSegments(t, d))
  }

  /** Resolving with the segments separated by `/`, the way the path they were read from separates them. */
  function ResolvePath(t: PathTemplate, d: TemplateData): string {
    Join(ResolvedSegments(t, d), "/")
  }

  /** With at most one segment the two agree. */
  lemma SingleSegmentResolve(t: PathTemplate, d: TemplateData)
    requires |t.segments| <= 1
    ensures Resolve(t, d) == ResolvePath(t, d)
  {
    var ss := ResolvedSegments(t, d);
    if |ss| == 1 {
      assert ss[..0] == [];
      assert Concat(ss) == Concat(ss[..0]) + ss[0];
    }
  }

  // ---------------------------------------------------------------------------
  // Data that agrees with a template.

  /** What a sub-second token amounts to in nanoseconds. */
  function SubSecondNanos(ss: Option<SubSecond>): nat {
    match ss
    case None => 0
    case Some(Milli(v)) => v * 1_000_000
    case Some(Micro(v)) => v * 1_000
    case Some(Nano(v)) => v
  }

  /**
   * `inst` is the instant the timestamp token `ts` names: the count in the token's unit
   * for an epoch timestamp (nanoseconds within `i64`), the fields themselves for a calendar
   * one, with midnight when it has no time and zero for a missing second.
   */
  predicate Denotes(inst: Instant, ts: Timestamp) {
    match ts
    case Epoch(Second(v)) => inst.epochNanos == v * 1_000_000_000
    case Epoch(Milli(v)) => inst.epochNanos == v * 1_000_000
    case Epoch(Micro(v)) => inst.epochNanos == v * 1_000
    case Epoch(Nano(v)) => inst.epochNanos == v && I64Min <= v <= I64Max
    case Calendar(dt) =>
      inst.year == dt.date.year && inst.month == dt.date.month && inst.day == dt.date.day &&
      (match dt.time
       case None => inst.hour == 0 && inst.minute == 0 && inst.second == 0 && inst.nanosecond == 0
       case Some(t) =>
         inst.hour == t.hour && inst.minute == t.minute && inst.second == t.second.UnwrapOr(0) &&
         inst.nanosecond == SubSecondNanos(t.subsecond))
  }

  /** The data holds the token's own value. */
  predicate Agrees(tok: Token, d: TemplateData) {
    match tok
    case Padded(p) => d.counter == Some(p.number)
    case RandomNumber(n) => d.random == Some(n)
    case Version(v) => d.semver == Some(v)
    case Stamp(ts) => Denotes(d.timestamp, ts)
    case Name(n) => d.name == n
    case UpDownMark(u) => d.upDown == Some(u)
    case DoUndoMark(x) => d.upDown == Some(DirectionOf(x))
    case _ => true
  }

  /** A timestamp resolved at the instant it names prints as itself. */
  lemma TimestampResolvesToText(ts: Timestamp, inst: Instant)
    requires Denotes(inst, ts)
    ensures ResolveTimestamp(ts, inst) == TimestampText(ts)
  {
    match ts
    case Epoch(e) => EpochResolvesToText(e, inst);
    case Calendar(dt) => CalendarResolvesToText(dt, inst);
  }

  lemma EpochResolvesToText(e: EpochTimestamp, inst: Instant)
    requires Denotes(inst, Epoch(e))
    ensures ResolveEpoch(e, inst) == IntToString(EpochValue(e))
  {
    match e
    case Second(v) => assert inst.epochNanos / 1_000_000_000 == v;
    case Milli(v) => assert inst.epochNanos / 1_000_000 == v;
    case Micro(v) => assert inst.epochNanos / 1_000 == v;
    case Nano(v) =>
  }

  lemma CalendarResolvesToText(dt: DateTime, inst: Instant)
    requires Denotes(inst, Calendar(dt))
    ensures ResolveDateTime(dt, inst) == DateTimeText(dt)
  {
    assert ResolveDate(dt.date, inst) == DateText(dt.date);
    if dt.time.Some? {
      var t := dt.time.value;
      if t.subsecond.Some? {
        assert ResolveSubSecond(t.subsecond.value, inst) == Decimal(SubSecondValue(t.subsecond.value));
      }
      assert ResolveTime(t, inst) == TimeText(t);
    }
  }

  /** A token resolved with data that agrees with it prints as itself. */
  lemma TokenResolvesToText(tok: Token, d: TemplateData)
    requires Agrees(tok, d)
    ensures ResolveToken(tok, d) == TokenText(tok)
  {
    match tok
    case Stamp(ts) => TimestampResolvesToText(ts, d.timestamp);
    case UpDownMark(u) =>
    case DoUndoMark(x) =>
    case _ =>
  }

  /** A segment whose every token agrees with the data resolves to its own text. */
  lemma SegmentResolvesToText(tokens: seq<Token>, d: TemplateData)
    requires forall i :: 0 <= i < |tokens| ==> Agrees(tokens[i], d)
    ensures Concat(SegmentPieces(tokens, d)) == TokensText(tokens)
  {
    var pieces := SegmentPieces(tokens, d);
    var texts := seq(|tokens|, i requires 0 <= i < |tokens| => TokenText(tokens[i]));
    forall i | 0 <= i < |tokens|
      ensures pieces[i] == texts[i]
    {
      if i + 1 < |tokens| && tokens[i + 1].UpDownMark? {
        assert Agrees(tokens[i + 1], d);
      }
      TokenResolvesToText(tokens[i], d);
    }
    assert pieces == texts;
  }

  /** A template whose every token agrees with the data resolves to the path it stands for. */
  lemma TemplateResolvesToText(t: PathTemplate, d: TemplateData)
    requires forall i, j :: 0 <= i < |t.segments| && 0 <= j < |t.segments[i].tokens| ==> Agrees(t.segments[i].tokens[j], d)
    ensures ResolvedSegments(t, d) == SegmentTexts(t)
    ensures ResolvePath(t, d) == PathText(t)
  {
    var resolved := ResolvedSegments(t, d);
    forall i | 0 <= i < |t.segments|
      ensures resolved[i] == SegmentTexts(t)[i]
    {
      SegmentResolvesToText(t.segments[i].tokens, d);
    }
    assert resolved == SegmentTexts(t);
  }

  // ---------------------------------------------------------------------------
  // The marker `with_up_down` adds.

  /**
   * When the data names no direction, the `.` and `up` that `with_up_down` adds print
   * nothing, so the file name is what it was without them.
   */
  lemma WithUpDownInvisible(t: PathTemplate, d: TemplateData)
    requires d.upDown.None?
    requires |t.segments| > 0
    requires var last := t.segments[|t.segments| - 1].tokens; |last| > 0 && !last[|last| - 1].UpDownMark?
    ensures ResolvedSegments(WithUpDownSpec(t), d) == ResolvedSegments(t, d)
    ensures ResolvePath(WithUpDownSpec(t), d) == ResolvePath(t, d)
    ensures Resolve(WithUpDownSpec(t), d) == Resolve(t, d)
  {
    var n := |t.segments| - 1;
    var tokens := t.segments[n].tokens;
    var after := WithUpDownSpec(t);
    LastSegmentInvisible(tokens, d);
    assert ResolvedSegments(after, d) == ResolvedSegments(t, d);
  }

  lemma LastSegmentInvisible(tokens: seq<Token>, d: TemplateData)
    requires d.upDown.None?
    requires |tokens| > 0 && !tokens[|tokens| - 1].UpDownMark?
    ensures Concat(SegmentPieces(WithUpDownTokens(tokens), d)) == Concat(SegmentPieces(tokens, d))
  {
    var m := |tokens| - 1;
    var rest, ext := tokens[..m], tokens[m];
    var before := SegmentPieces(tokens, d);
    if !(|rest| > 0 && rest[|rest| - 1].IsDirection()) {
      AddedMarkerPieces(tokens, d);
      assert before == before[..m] + [before[m]];
      EmptyPiecesVanish(before[..m], before[m]);
    } else {
      assert rest + [ext] == tokens;
    }
  }

  lemma AddedMarkerPieces(tokens: seq<Token>, d: TemplateData)
    requires d.upDown.None?
    requires |tokens| > 0 && !tokens[|tokens| - 1].UpDownMark?
    ensures var m := |tokens| - 1;
      SegmentPieces(tokens[..m] + [Dot, UpDownMark(Up), tokens[m]], d)
        == SegmentPieces(tokens, d)[..m] + ["", "", SegmentPieces(tokens, d)[m]]
  {
    var m := |tokens| - 1;
    var added := tokens[..m] + [Dot, UpDownMark(Up), tokens[m]];
    var before := SegmentPieces(tokens, d);
    var after := SegmentPieces(added, d);
    forall i | 0 <= i < m
      ensures after[i] == before[i]
    {
      assert added[i] == tokens[i];
      if i + 1 < m {
        assert added[i + 1] == tokens[i + 1];
      }
    }
    assert after[m] == "" && after[m + 1] == "" && after[m + 2] == before[m];
  }

  lemma EmptyPiecesVanish(a: seq<string>, x: string)
    ensures Concat(a + ["", "", x]) == Concat(a + [x])
  {
    ConcatAppend(a, ["", "", x]);
    ConcatAppend(a, [x]);
    assert ["", "", x][..2] == ["", ""] && ["", ""][..1] == [""] && [""][..0] == [];
    assert [x][..0] == [];
  }
}
