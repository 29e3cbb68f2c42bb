/**
 * A directory path on which the resolver as written and the corrected resolver part
 * ways: `017/up.sql` parses into a directory holding a padded counter and a bare
 * marker file. Resolving the template with its own data, the resolver as written
 * prints `017up.sql`; the corrected one, which puts `/` between segments, prints the
 * path back.
 */
module DirectoryExample {
  import opened Wrappers
  import opened Text
  import opened PathAst
  import opened PathParser
  import opened PathResolver
  import opened PathRoundTrip
  import opened PathReadBack

  const Input: string := "017/up.sql"
  const AfterCounter: string := "/up.sql"
  const Counter: Token := Padded(PaddedNumber(3, 17))
  const MarkerFileSegment: Segment := Segment(File, [UpDownMark(Up), Extension])
  const Example: PathTemplate := PathTemplate([Segment(Dir, [Counter]), MarkerFileSegment])

  lemma InputDigits()
    ensures Digit1(Input) == Some(Parsed("017", AfterCounter))
  {
    var k := LeadingDigits(Input);
    assert IsDigit(Input[0]) && IsDigit(Input[1]) && IsDigit(Input[2]) && !IsDigit(Input[3]);
    assert k == 3;
    assert Input[..3] == "017" && Input[3..] == AfterCounter;
  }

  lemma SeventeenValue()
    ensures AllDigits("017") && DigitsValue("017") == 17
  {
    assert "017"[..2] == "01";
    assert "01"[..1] == "0";
    assert "0"[..0] == "";
  }

  /** The counter is not a date: the input does not start with `20`. */
  lemma NoDate()
    ensures DateTimeToken(Input).None?
  {
    assert Input[..2] == "01";
  }

  /** Seventeen is no timestamp in any unit. */
  lemma NoEpoch()
    ensures EpochTimestampToken(Input).None?
  {
    InputDigits();
    SeventeenValue();
    assert EpochDigits(Input) == Some(Parsed(17, AfterCounter));
  }

  lemma NoSemver()
    ensures SemverToken(Input).None?
  {
    InputDigits();
    assert AfterCounter[..1] == "/";
    NoDotAfterDigits(Input, "017", AfterCounter);
  }

  lemma NoDotAfterDigits(s: string, d: string, rest: string)
    requires Digit1(s) == Some(Parsed(d, rest)) && Tag(rest, ".").None?
    ensures SemverToken(s).None?
  {
    assert ThreeDigitRuns(s).None?;
  }

  lemma CounterRead()
    ensures LeadingNumber(Input) == Some(Parsed(Counter, AfterCounter))
  {
    NoDate();
    NoEpoch();
    NoSemver();
    InputDigits();
    SeventeenValue();
    assert ParseUnsigned("017", UsizeMax) == Some(17);
  }

  lemma NothingAfterCounter()
    ensures Seps(AfterCounter) == Parsed([], AfterCounter)
    ensures TrailingNumber(Counter, AfterCounter) == Parsed([Counter], AfterCounter)
    ensures OptNamed(AfterCounter, 1) == Parsed([], AfterCounter)
  {
    assert Sep(AfterCounter).None?;
    assert Digit1(AfterCounter).None?;
  }

  lemma NoPrefix()
    ensures OptPrefix(Input) == Parsed([], Input)
  {
    assert LeadingZs(Input) == 0;
    assert PrefixToken(Input).None?;
  }

  lemma NumberRead()
    ensures NumberTokens(Input) == Some(Parsed([Counter], AfterCounter))
  {
    CounterRead();
    NothingAfterCounter();
  }

  lemma DirectoryRead()
    ensures DirIdent(Input) == Some(Parsed(Segment(Dir, [Counter]), AfterCounter))
  {
    NoPrefix();
    NumberRead();
    NothingAfterCounter();
    BareDirectory(Input, [Counter], AfterCounter);
  }

  /** A directory with neither prefix nor name holds just its number tokens. */
  lemma BareDirectory(s: string, tokens: seq<Token>, rest: string)
    requires OptPrefix(s) == Parsed([], s)
    requires NumberTokens(s) == Some(Parsed(tokens, rest))
    requires OptNamed(rest, 1) == Parsed([], rest)
    ensures DirIdent(s) == Some(Parsed(Segment(Dir, tokens), rest))
  {
    var none: seq<Token> := [];
    assert none + tokens + none == tokens;
  }

  lemma MarkerFileRead()
    ensures FileNonIdent("up.sql") == Some(Parsed(MarkerFileSegment, ""))
  {
    assert "up.sql"[..2] == "up" && "up.sql"[2..] == ".sql";
    assert "up.sql"[..4][0] == 'u' && "down"[0] == 'd' && "undo"[0] == 'u' && "up.sql"[..4][1] == 'p' && "undo"[1] == 'n';
    assert UpDownToken("up.sql") == Some(Parsed(UpDownMark(Up), ".sql"));
    assert FileExt(".sql") == Some("");
  }

  lemma InputParses()
    ensures Parse(Input) == Some(Example)
  {
    DirectoryRead();
    assert AfterCounter[1..] == "up.sql";
    assert PathSep(AfterCounter) == Some("up.sql");
    MarkerFileRead();
    DirectoryThenMarker(Input, Segment(Dir, [Counter]), AfterCounter, "up.sql", MarkerFileSegment);
  }

  /** A directory, a separator and a marker file that end the input parse as a two-segment template. */
  lemma DirectoryThenMarker(s: string, dir: Segment, rest: string, afterSep: string, file: Segment)
    requires DirIdent(s) == Some(Parsed(dir, rest))
    requires PathSep(rest) == Some(afterSep)
    requires FileNonIdent(afterSep) == Some(Parsed(file, ""))
    ensures Parse(s) == Some(PathTemplate([dir, file]))
  {
    assert DirThenMarker(s) == Some(Parsed([dir, file], ""));
  }

  lemma ExampleTexts()
    ensures TokensText([Counter]) == "017"
    ensures TokensText([UpDownMark(Up), Extension]) == "up.sql"
  {
    TokensTextOne(Counter);
    assert Decimal(17) == Decimal(1) + [DigitChar(7)] == "17";
    assert PadLeft("17", 3) == Zeros(1) + "17" == "017";
    TwoTokensText(UpDownMark(Up), Extension);
  }

  lemma ExampleTokens()
    ensures AllTokens(Example.segments) == [Counter, UpDownMark(Up), Extension]
  {
    var segs := Example.segments;
    assert segs[..1] == [segs[0]] && segs[..1][..0] == [];
    assert AllTokens(segs[..1]) == [Counter];
  }

  lemma ExampleWellFormed(toInstant: Timestamp -> Instant)
    ensures MarkersPlaced(Example)
    ensures OneOfEach(AllTokens(Example.segments)) && StampsDenoted(AllTokens(Example.segments), toInstant)
  {
    ExampleTokens();
  }

  /** The resolver as written runs the two segments together. */
  lemma WrittenResolverJoins(toInstant: Timestamp -> Instant)
    ensures Resolve(WithUpDownSpec(Example), OwnData(Example, toInstant)) == "017up.sql"
    ensures PathText(Example) == Input
  {
    ExampleWellFormed(toInstant);
    ExampleTexts();
    ResolveDropsSeparator(Example, toInstant);
  }

  /** The corrected resolver gives the input back. */
  lemma CorrectedResolverGivesBack(toInstant: Timestamp -> Instant)
    ensures ResolvePath(WithUpDownSpec(Example), OwnData(Example, toInstant)) == Input
  {
    InputParses();
    WrittenResolverJoins(toInstant);
    ExampleWellFormed(toInstant);
    NoBackslash();
    GivesBackAt(Input, Example, toInstant);
  }

  lemma NoBackslash()
    ensures '\\' !in Input
  {
  }

  lemma GivesBackAt(s: string, t: PathTemplate, toInstant: Timestamp -> Instant)
    requires Parse(s) == Some(t) && PathText(t) == s && '\\' !in s
    requires OneOfEach(AllTokens(t.segments)) && StampsDenoted(AllTokens(t.segments), toInstant)
    ensures ResolvePath(WithUpDownSpec(t), OwnData(t, toInstant)) == s
  {
    ParseResolveGivesPath(s, toInstant);
  }

  /**
   * The path parses into a directory and a marker file; resolved with its own data,
   * the resolver as written loses the `/`, the corrected one does not.
   */
  lemma DirectoryPathResolves(toInstant: Timestamp -> Instant)
    ensures Parse(Input) == Some(Example)
    ensures Resolve(WithUpDownSpec(Example), OwnData(Example, toInstant)) == "017up.sql"
    ensures ResolvePath(WithUpDownSpec(Example), OwnData(Example, toInstant)) == Input
  {
    InputParses();
    WrittenResolverJoins(toInstant);
    CorrectedResolverGivesBack(toInstant);
  }
}
