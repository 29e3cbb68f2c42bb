/**
 * Reading a parsed path back. Every token prints as the text it was read from, except
 * that an epoch timestamp, a trailing random number or a sub-second field keeps only its
 * value: leading zeros written in the path do not come back. So the text of what was
 * read is never longer than the input it consumed, and when it is just as long it is
 * that input.
 */
module PathReadBack {
  import opened Wrappers
  import opened Text
  import opened PathAst
  import opened PathParser
  import opened PathResolver
  import opened PathRoundTrip

  /**
   * `text` stands for the input `s` up to `rest`: it is at most as long as what was
   * consumed, and exactly what was consumed when it is as long.
   */
  predicate ReadsBack(s: string, text: string, rest: string) {
    |text| + |rest| <= |s| && (|text| + |rest| == |s| ==> s == text + rest)
  }

  /** Two reads in a row read back as their texts in a row. */
  lemma ReadsBackThen(s: string, a: string, rest1: string, b: string, rest2: string)
    requires ReadsBack(s, a, rest1) && ReadsBack(rest1, b, rest2)
    ensures ReadsBack(s, a + b, rest2)
  {
    if |a + b| + |rest2| == |s| {
      assert |b| + |rest2| == |rest1|;
      assert s == a + (b + rest2);
    }
  }

  /** A run of digits read as a plain number prints back no longer, and unchanged when no shorter. */
  lemma DigitsReadBack(s: string, d: string, rest: string)
    requires s == d + rest && AllDigits(d) && |d| > 0
    ensures ReadsBack(s, Decimal(DigitsValue(d)), rest)
  {
    DecimalLength(d);
    PadDecimalRoundTrip(d);
  }

  lemma TokensTextAppend(a: seq<Token>, b: seq<Token>)
    ensures TokensText(a + b) == TokensText(a) + TokensText(b)
  {
    var ab := a + b;
    var pa := seq(|a|, i requires 0 <= i < |a| => TokenText(a[i]));
    var pb := seq(|b|, i requires 0 <= i < |b| => TokenText(b[i]));
    assert seq(|ab|, i requires 0 <= i < |ab| => TokenText(ab[i])) == pa + pb;
    ConcatAppend(pa, pb);
  }

  // ---------------------------------------------------------------------------
  // Single tokens.

  lemma RandomReadsBack(s: string)
    requires RandomNumberToken(s).Some?
    ensures var r := RandomNumberToken(s).value; ReadsBack(s, TokenText(r.value), r.rest)
  {
    var d := Digit1(s).value.value;
    DigitsReadBack(s, d, RandomNumberToken(s).value.rest);
  }

  lemma EpochReadsBack(s: string)
    requires EpochTimestampToken(s).Some?
    ensures var r := EpochTimestampToken(s).value; ReadsBack(s, TokenText(r.value), r.rest)
  {
    var d := Digit1(s).value.value;
    var r := EpochTimestampToken(s).value;
    assert TokenText(r.value) == Decimal(DigitsValue(d));
    DigitsReadBack(s, d, r.rest);
  }

  /** A sub-second field prints its value without the zeros it may have been written with. */
  lemma SubSecondReadsBack(s: string)
    requires SubSecondField(s).Some?
    ensures var r := SubSecondField(s).value; ReadsBack(s, Decimal(SubSecondValue(r.value)), r.rest)
  {
    var r := SubSecondField(s).value;
    var k := |s| - |r.rest|;
    if SubNano(s).Some? {
      assert s == s[..9] + s[9..];
      DigitsReadBack(s, s[..9], r.rest);
    } else if SubMicro(s).Some? {
      assert s == s[..6] + s[6..];
      DigitsReadBack(s, s[..6], r.rest);
    } else {
      assert s == s[..k] + s[k..];
      DigitsReadBack(s, s[..k], r.rest);
    }
  }

  lemma TimeReadsBackAll(s: string)
    requires TimeField(s).Some?
    ensures var r := TimeField(s).value; ReadsBack(s, TimeText(r.value), r.rest)
  {
    if TimeField(s).value.value.subsecond.None? {
      TimeReadsBack(s);
    } else {
      SubSecondTimeReadsBack(s);
    }
  }

  lemma SubSecondTimeReadsBack(s: string)
    requires TimeField(s).Some? && TimeField(s).value.value.subsecond.Some?
    ensures var r := TimeField(s).value; ReadsBack(s, TimeText(r.value), r.rest)
  {
    var h := Hour(s).value;
    var s1 := OptSep(h.rest);
    var m := Minute(s1.rest).value;
    var s2 := OptSep(m.rest);
    var sec := SecondField(s2.rest).value;
    var s3 := OptSep(sec.rest);
    var sub := SubSecondField(s3.rest).value;
    var t := Time(h.value, s1.value, m.value, s2.value, Some(sec.value), s3.value, Some(sub.value));
    assert TimeField(s).value == Parsed(t, sub.rest);
    var upToSep := Pad2(h.value) + SepText(s1.value) + Pad2(m.value) + SepText(s2.value) + Pad2(sec.value) + SepText(s3.value);
    ReadThen(s, Pad2(h.value), h.rest, SepText(s1.value), s1.rest);
    ReadThen(s, Pad2(h.value) + SepText(s1.value), s1.rest, Pad2(m.value), m.rest);
    ReadThen(s, Pad2(h.value) + SepText(s1.value) + Pad2(m.value), m.rest, SepText(s2.value), s2.rest);
    ReadThen(s, Pad2(h.value) + SepText(s1.value) + Pad2(m.value) + SepText(s2.value), s2.rest, Pad2(sec.value), sec.rest);
    ReadThen(s, Pad2(h.value) + SepText(s1.value) + Pad2(m.value) + SepText(s2.value) + Pad2(sec.value), sec.rest,
      SepText(s3.value), s3.rest);
    SubSecondReadsBack(s3.rest);
    ReadsBackThen(s, upToSep, s3.rest, Decimal(SubSecondValue(sub.value)), sub.rest);
    assert TimeText(t) == upToSep + Decimal(SubSecondValue(sub.value));
  }

  lemma DateTimeReadsBackAll(s: string)
    requires DateTimeToken(s).Some?
    ensures var r := DateTimeToken(s).value; ReadsBack(s, TokenText(r.value), r.rest)
  {
    var dt := DateTimeToken(s).value.value.timestamp.dateTime;
    if dt.time.None? || dt.time.value.subsecond.None? {
      DateTimeReadsBack(s);
    } else {
      SubSecondDateTimeReadsBack(s);
    }
  }

  lemma SubSecondDateTimeReadsBack(s: string)
    requires DateTimeToken(s).Some?
    requires var dt := DateTimeToken(s).value.value.timestamp.dateTime; dt.time.Some?
    ensures var r := DateTimeToken(s).value; ReadsBack(s, TokenText(r.value), r.rest)
  {
    var d := DateField(s).value;
    DateReadsBack(s);
    var s3 := OptSep(d.rest);
    var t := TimeField(s3.rest).value;
    var dt := DateTime(d.value, s3.value, Some(t.value));
    assert DateTimeToken(s).value == Parsed(Stamp(Calendar(dt)), t.rest);
    ReadThen(s, DateText(d.value), d.rest, SepText(s3.value), s3.rest);
    TimeReadsBackAll(s3.rest);
    ReadsBackThen(s, DateText(d.value) + SepText(s3.value), s3.rest, TimeText(t.value), t.rest);
    CalendarTokenText(dt);
  }

  // ---------------------------------------------------------------------------
  // Numbers, segments and paths.

  lemma LeadingNumberReadsBack(s: string)
    requires LeadingNumber(s).Some?
    ensures var r := LeadingNumber(s).value; ReadsBack(s, TokenText(r.value), r.rest)
  {
    if DateTimeToken(s).Some? {
      DateTimeReadsBackAll(s);
    } else if EpochTimestampToken(s).Some? {
      EpochReadsBack(s);
    }
  }

  lemma EpochOrRandomReadsBack(s: string)
    requires EpochOrRandom(s).Some?
    ensures var r := EpochOrRandom(s).value; ReadsBack(s, TokenText(r.value), r.rest)
  {
    if EpochTimestampToken(s).Some? {
      EpochReadsBack(s);
    } else {
      RandomReadsBack(s);
    }
  }

  /** What follows the leading number reads back, the leading number itself aside. */
  lemma TrailingNumberReadsBack(first: Token, s: string)
    requires !first.IsDirection()
    ensures var r := TrailingNumber(first, s); ReadsBack(s, TokensText(r.value[1..]), r.rest)
  {
    var seps := Seps(s);
    if EpochOrRandom(seps.rest).None? {
      assert TrailingNumber(first, s) == Parsed([first], s);
      assert [first][1..] == [];
      TokensTextEmpty();
    } else {
      var t2 := EpochOrRandom(seps.rest).value;
      assert TrailingNumber(first, s) == Parsed([first] + seps.value + [t2.value], t2.rest);
      AfterFirst(first, seps.value, t2.value);
      EpochOrRandomReadsBack(seps.rest);
      SepsThenToken(s, seps.value, seps.rest, t2.value, t2.rest);
    }
  }

  lemma AfterFirst<T>(x: T, xs: seq<T>, y: T)
    ensures ([x] + xs + [y])[1..] == xs + [y]
  {
  }

  lemma SepsThenToken(s: string, seps: seq<Token>, rest1: string, t: Token, rest2: string)
    requires s == TokensText(seps) + rest1 && ReadsBack(rest1, TokenText(t), rest2)
    ensures ReadsBack(s, TokensText(seps + [t]), rest2)
  {
    TokensTextAppend(seps, [t]);
    TokensTextOne(t);
    ReadsBackThen(s, TokensText(seps), rest1, TokenText(t), rest2);
  }

  lemma SepsThenTokenExact(s: string, seps: seq<Token>, rest1: string, t: Token, rest2: string)
    requires s == TokensText(seps) + rest1 && rest1 == TokenText(t) + rest2
    ensures s == TokensText(seps + [t]) + rest2
  {
    TokensTextAppend(seps, [t]);
    TokensTextOne(t);
    ReadThen(s, TokensText(seps), rest1, TokenText(t), rest2);
  }

  lemma NumberTokensReadsBack(s: string)
    requires NumberTokens(s).Some?
    ensures var r := NumberTokens(s).value; ReadsBack(s, TokensText(r.value), r.rest)
  {
    var t1 := LeadingNumber(s).value;
    var r := TrailingNumber(t1.value, t1.rest);
    assert NumberTokens(s).value == r;
    LeadingNumberReadsBack(s);
    TrailingNumberReadsBack(t1.value, t1.rest);
    HeadThenTail(s, r.value, t1.rest, r.rest);
  }

  lemma HeadThenTail(s: string, tokens: seq<Token>, rest1: string, rest2: string)
    requires |tokens| > 0
    requires ReadsBack(s, TokenText(tokens[0]), rest1) && ReadsBack(rest1, TokensText(tokens[1..]), rest2)
    ensures ReadsBack(s, TokensText(tokens), rest2)
  {
    assert tokens == [tokens[0]] + tokens[1..];
    TokensTextCons(tokens[0], tokens[1..]);
    ReadsBackThen(s, TokenText(tokens[0]), rest1, TokensText(tokens[1..]), rest2);
  }

  /** Separators and a name, when read, are read back exactly. */
  lemma OptNamedExact(s: string, minSeps: nat)
    ensures var r := OptNamed(s, minSeps); s == TokensText(r.value) + r.rest
  {
    var seps := Seps(s);
    var name := NameToken(seps.rest);
    if |seps.value| >= minSeps && name.Some? {
      assert OptNamed(s, minSeps) == Parsed(seps.value + [name.value.value], name.value.rest);
      SepsThenTokenExact(s, seps.value, seps.rest, name.value.value, name.value.rest);
    } else {
      assert OptNamed(s, minSeps) == Parsed([], s);
      TokensTextEmpty();
    }
  }

  lemma OptMarkerExact(s: string)
    ensures var r := OptMarker(s); s == TokensText(r.value) + r.rest
  {
    if Tag(s, ".").Some? && UpDownToken(Tag(s, ".").value).Some? {
      var afterDot := Tag(s, ".").value;
      var u := UpDownToken(afterDot).value;
      assert OptMarker(s) == Parsed([Dot, u.value], u.rest);
      DotMarkerText(u.value);
      ReadThen(s, ".", afterDot, TokenText(u.value), u.rest);
    } else {
      assert OptMarker(s) == Parsed([], s);
      TokensTextEmpty();
    }
  }

  lemma DotMarkerText(t: Token)
    ensures TokensText([Dot, t]) == "." + TokenText(t)
  {
    TwoTokensText(Dot, t);
  }

  /** Prefix, number and name: the directory's text is read back. */
  lemma DirIdentReadsBack(s: string)
    requires DirIdent(s).Some?
    ensures var r := DirIdent(s).value; ReadsBack(s, TokensText(r.value.tokens), r.rest)
  {
    var p := OptPrefix(s);
    var n := NumberTokens(p.rest).value;
    var named := OptNamed(n.rest, 1);
    NumberTokensReadsBack(p.rest);
    OptNamedExact(n.rest, 1);
    ReadsBackThen(s, TokensText(p.value), p.rest, TokensText(n.value), n.rest);
    ReadsBackThen(s, TokensText(p.value) + TokensText(n.value), n.rest, TokensText(named.value), named.rest);
    TokensTextAppend(p.value, n.value);
    TokensTextAppend(p.value + n.value, named.value);
  }

  lemma FileIdentReadsBack(s: string)
    requires FileIdent(s).Some?
    ensures var r := FileIdent(s).value; ReadsBack(s, TokensText(r.value.tokens), r.rest)
  {
    var p := OptPrefix(s);
    var n := NumberTokens(p.rest).value;
    var named := OptNamed(n.rest, 0);
    var marked := OptMarker(named.rest);
    var rest := FileExt(marked.rest).value;
    assert FileIdent(s).value == Parsed(Segment(File, p.value + n.value + named.value + marked.value + [Extension]), rest);
    NumberTokensReadsBack(p.rest);
    OptNamedExact(n.rest, 0);
    OptMarkerExact(named.rest);
    FileBodyReadsBack(s, p.value, p.rest, n.value, n.rest, named.value, named.rest, marked.value, marked.rest, rest);
  }

  /** The pieces of `file_ident` in a row read back as the segment's text. */
  lemma FileBodyReadsBack(s: string, pv: seq<Token>, prest: string, nv: seq<Token>, nrest: string,
                          namedv: seq<Token>, namedrest: string, markedv: seq<Token>, markedrest: string, rest: string)
    requires s == TokensText(pv) + prest
    requires ReadsBack(prest, TokensText(nv), nrest)
    requires nrest == TokensText(namedv) + namedrest
    requires namedrest == TokensText(markedv) + markedrest
    requires markedrest == ".sql" + rest
    ensures ReadsBack(s, TokensText(pv + nv + namedv + markedv + [Extension]), rest)
  {
    var body := pv + nv + namedv;
    ReadsBackThen(s, TokensText(pv), prest, TokensText(nv), nrest);
    TokensTextAppend(pv, nv);
    ReadsBackThen(s, TokensText(pv + nv), nrest, TokensText(namedv), namedrest);
    TokensTextAppend(pv + nv, namedv);
    ReadsBackThen(s, TokensText(body), namedrest, TokensText(markedv), markedrest);
    TokensTextAppend(body, markedv);
    TokensTextOne(Extension);
    ReadsBackThen(s, TokensText(body + markedv), markedrest, TokensText([Extension]), rest);
    TokensTextAppend(body + markedv, [Extension]);
  }

  lemma FileNonIdentExact(s: string)
    requires FileNonIdent(s).Some?
    ensures var r := FileNonIdent(s).value; s == TokensText(r.value.tokens) + r.rest
  {
    var u := UpDownToken(s).value;
    var rest := FileExt(u.rest).value;
    assert FileNonIdent(s).value == Parsed(Segment(File, [u.value, Extension]), rest);
    MarkerFileText(u.value);
    ReadThen(s, TokenText(u.value), u.rest, ".sql", rest);
  }

  lemma MarkerFileText(t: Token)
    ensures TokensText([t, Extension]) == TokenText(t) + ".sql"
  {
    TwoTokensText(t, Extension);
  }

  lemma TwoTokensText(a: Token, b: Token)
    ensures TokensText([a, b]) == TokenText(a) + TokenText(b)
  {
    assert [a, b] == [a] + [b];
    TokensTextCons(a, [b]);
    TokensTextOne(b);
  }

  /** The first alternative of a path: its text uses the separator character that was read. */
  lemma DirThenMarkerReadsBack(s: string)
    requires DirThenMarker(s).Some?
    ensures var r := DirThenMarker(s).value;
      var dir := DirIdent(s).value;
      |r.value| == 2 && |dir.rest| > 0 && dir.rest[0] in {'/', '\\'} &&
      ReadsBack(s, TokensText(r.value[0].tokens) + [dir.rest[0]] + TokensText(r.value[1].tokens), r.rest)
  {
    var dir := DirIdent(s).value;
    var afterSep := PathSep(dir.rest).value;
    var file := FileNonIdent(afterSep).value;
    assert DirThenMarker(s).value == Parsed([dir.value, file.value], file.rest);
    DirIdentReadsBack(s);
    FileNonIdentExact(afterSep);
    SeparatedReadsBack(s, TokensText(dir.value.tokens), dir.rest, TokensText(file.value.tokens), file.rest);
  }

  /** A read, one character, and an exact read, in a row. */
  lemma SeparatedReadsBack(s: string, a: string, rest1: string, b: string, rest2: string)
    requires ReadsBack(s, a, rest1) && |rest1| > 0 && rest1[1..] == b + rest2
    ensures ReadsBack(s, a + [rest1[0]] + b, rest2)
  {
    assert rest1 == [rest1[0]] + rest1[1..];
    ReadsBackThen(s, a, rest1, [rest1[0]] + b, rest2);
    assert a + ([rest1[0]] + b) == a + [rest1[0]] + b;
  }

  lemma JoinTwo(a: string, b: string, sep: string)
    ensures Join([a, b], sep) == a + sep + b
  {
    assert [a, b][..1] == [a];
  }

  /** A character of the path is not a backslash when the path has none. */
  lemma SlashSeparator(s: string, a: string, c: char, b: string)
    requires s == a + [c] + b && '\\' !in s && c in {'/', '\\'}
    ensures c == '/'
  {
    assert s[|a|] == c;
  }

  /**
   * The text of a parsed path is never longer than the path, and when it is as long and
   * the path uses `/` as its separator, it is the path itself.
   */
  lemma ParseReadsBack(s: string)
    requires Parse(s).Some?
    ensures |PathText(Parse(s).value)| <= |s|
    ensures |PathText(Parse(s).value)| == |s| && '\\' !in s ==> PathText(Parse(s).value) == s
  {
    if DirThenMarker(s).Some? {
      ParseDirReadsBack(s);
    } else {
      ParseFileReadsBack(s);
    }
  }

  lemma ParseDirReadsBack(s: string)
    requires Parse(s).Some? && DirThenMarker(s).Some?
    ensures |PathText(Parse(s).value)| <= |s|
    ensures |PathText(Parse(s).value)| == |s| && '\\' !in s ==> PathText(Parse(s).value) == s
  {
    var r := DirThenMarker(s).value;
    var c := DirIdent(s).value.rest[0];
    ParseIsDir(s);
    DirThenMarkerReadsBack(s);
    TwoSegmentPathText(r.value);
    if |PathText(Parse(s).value)| == |s| && '\\' !in s {
      SlashSeparator(s, TokensText(r.value[0].tokens), c, TokensText(r.value[1].tokens));
    }
  }

  lemma ParseIsDir(s: string)
    requires Parse(s).Some? && DirThenMarker(s).Some?
    ensures Parse(s).value == PathTemplate(DirThenMarker(s).value.value) && DirThenMarker(s).value.rest == ""
  {
  }

  lemma TwoSegmentPathText(segs: seq<Segment>)
    requires |segs| == 2
    ensures PathText(PathTemplate(segs)) == TokensText(segs[0].tokens) + "/" + TokensText(segs[1].tokens)
  {
    var texts := SegmentTexts(PathTemplate(segs));
    assert texts == [TokensText(segs[0].tokens), TokensText(segs[1].tokens)];
    JoinTwo(texts[0], texts[1], "/");
  }

  lemma ParseFileReadsBack(s: string)
    requires Parse(s).Some? && DirThenMarker(s).None?
    ensures |PathText(Parse(s).value)| <= |s|
    ensures |PathText(Parse(s).value)| == |s| ==> PathText(Parse(s).value) == s
  {
    var file := FileIdent(s).value;
    assert Parse(s).value == PathTemplate([file.value]) && file.rest == "";
    FileIdentReadsBack(s);
    assert SegmentTexts(Parse(s).value) == [TokensText(file.value.tokens)];
  }

  /**
   * The test the path templates are written for: parsing a path, adding the up/down
   * marker and resolving with the data the path's own tokens carry gives back the path,
   * whenever no number in it was written with zeros the value drops, the path separator
   * is `/`, no part of the data is filled in twice and the date library reads each
   * timestamp as written.
   */
  lemma ParseResolveGivesPath(s: string, toInstant: Timestamp -> Instant)
    requires Parse(s).Some? && |PathText(Parse(s).value)| == |s| && '\\' !in s
    requires OneOfEach(AllTokens(Parse(s).value.segments)) && StampsDenoted(AllTokens(Parse(s).value.segments), toInstant)
    ensures ResolvePath(WithUpDownSpec(Parse(s).value), OwnData(Parse(s).value, toInstant)) == s
  {
    ParseResolveRoundTrip(s, toInstant);
    ParseReadsBack(s);
  }
}
