/**
 * A template resolved with the data read from its own tokens gives back the path it
 * was parsed from: the round trip every migration file name must survive.
 */
module PathRoundTrip {
  import opened Wrappers
  import opened Text
  import opened PathAst
  import opened PathResolver
  import opened PathParser

  /** The part of the data a token fills in. */
  datatype Field = TimestampField | NameField | UpDownField | CounterField | RandomField | SemverField

  function FieldOf(tok: Token): Option<Field> {
    match tok
    case Stamp(_) => Some(TimestampField)
    case Name(_) => Some(NameField)
    case Padded(_) => Some(CounterField)
    case RandomNumber(_) => Some(RandomField)
    case Version(_) => Some(SemverField)
    case UpDownMark(_) => Some(UpDownField)
    case DoUndoMark(_) => Some(UpDownField)
    case _ => None
  }

  /**
   * One step of reading a template's data from its tokens: the token overwrites its part.
   * `toInstant` is the date library's conversion of a timestamp token to an instant.
   */
  function Absorb(d: TemplateData, tok: Token, toInstant: Timestamp -> Instant): TemplateData {
    match tok
    case Stamp(ts) => d.(timestamp := toInstant(ts))
    case Name(n) => d.(name := n)
    case Padded(p) => d.(counter := Some(p.number))
    case RandomNumber(n) => d.(random := Some(n))
    case Version(v) => d.(semver := Some(v))
    case UpDownMark(u) => d.(upDown := Some(u))
    case DoUndoMark(x) => d.(upDown := Some(DirectionOf(x)))
    case _ => d
  }

  /** The data read from a sequence of tokens, starting from the default; a later token wins. */
  function CollectData(tokens: seq<Token>, toInstant: Timestamp -> Instant): TemplateData
    decreases |tokens|
  {
    if |tokens| == 0 then DefaultData
    else Absorb(CollectData(tokens[..|tokens| - 1], toInstant), tokens[|tokens| - 1], toInstant)
  }

  /** All the tokens of all the segments, in order. */
  function AllTokens(segments: seq<Segment>): seq<Token>
    decreases |segments|
  {
    if |segments| == 0 then [] else AllTokens(segments[..|segments| - 1]) + segments[|segments| - 1].tokens
  }

  /** The data a template carries in its own tokens. */
  function OwnData(t: PathTemplate, toInstant: Timestamp -> Instant): TemplateData {
    CollectData(AllTokens(t.segments), toInstant)
  }

  /** No part of the data is filled in by two tokens. */
  predicate OneOfEach(tokens: seq<Token>) {
    forall i, j :: 0 <= i < j < |tokens| && FieldOf(tokens[i]).Some? ==> FieldOf(tokens[i]) != FieldOf(tokens[j])
  }

  /** The date library turns each timestamp token into the instant it names. */
  predicate StampsDenoted(tokens: seq<Token>, toInstant: Timestamp -> Instant) {
    forall i :: 0 <= i < |tokens| && tokens[i].Stamp? ==> Denotes(toInstant(tokens[i].timestamp), tokens[i].timestamp)
  }

  /** A marker, if there is one, sits just before the final token of the last segment, as the parser puts it. */
  predicate MarkersPlaced(t: PathTemplate) {
    forall i, j :: 0 <= i < |t.segments| && 0 <= j < |t.segments[i].tokens| && t.segments[i].tokens[j].IsDirection() ==>
      i == |t.segments| - 1 && j == |t.segments[i].tokens| - 2
  }

  // ---------------------------------------------------------------------------
  // Reading the data back.

  /** A later token of another part leaves a token's agreement alone. */
  lemma AbsorbKeeps(tok: Token, d: TemplateData, other: Token, toInstant: Timestamp -> Instant)
    requires Agrees(tok, d)
    requires FieldOf(tok).None? || FieldOf(tok) != FieldOf(other)
    ensures Agrees(tok, Absorb(d, other, toInstant))
  {
  }

  /** Every token agrees with the data read from the tokens, when no part is filled in twice. */
  lemma {:induction false} CollectAgrees(tokens: seq<Token>, toInstant: Timestamp -> Instant, i: nat)
    requires i < |tokens|
    requires OneOfEach(tokens) && StampsDenoted(tokens, toInstant)
    ensures Agrees(tokens[i], CollectData(tokens, toInstant))
    decreases |tokens|
  {
    var n := |tokens| - 1;
    var init := tokens[..n];
    if i < n {
      assert OneOfEach(init) by {
        forall a, b | 0 <= a < b < |init| && FieldOf(init[a]).Some?
          ensures FieldOf(init[a]) != FieldOf(init[b])
        {
          assert init[a] == tokens[a] && init[b] == tokens[b];
        }
      }
      assert StampsDenoted(init, toInstant) by {
        forall a | 0 <= a < |init| && init[a].Stamp?
          ensures Denotes(toInstant(init[a].timestamp), init[a].timestamp)
        {
          assert init[a] == tokens[a];
        }
      }
      CollectAgrees(init, toInstant, i);
      assert init[i] == tokens[i];
      AbsorbKeeps(tokens[i], CollectData(init, toInstant), tokens[n], toInstant);
    }
  }

  /** Tokens without a marker leave the direction unset. */
  lemma {:induction false} CollectNoDirection(tokens: seq<Token>, toInstant: Timestamp -> Instant)
    requires forall k :: 0 <= k < |tokens| ==> !tokens[k].IsDirection()
    ensures CollectData(tokens, toInstant).upDown.None?
    decreases |tokens|
  {
    if |tokens| > 0 {
      var n := |tokens| - 1;
      assert forall k :: 0 <= k < n ==> tokens[..n][k] == tokens[k];
      CollectNoDirection(tokens[..n], toInstant);
    }
  }

  lemma {:induction false} AllTokensMembers(segments: seq<Segment>)
    ensures forall i, j :: 0 <= i < |segments| && 0 <= j < |segments[i].tokens| ==> segments[i].tokens[j] in AllTokens(segments)
    decreases |segments|
  {
    if |segments| > 0 {
      var n := |segments| - 1;
      AllTokensMembers(segments[..n]);
      assert forall i :: 0 <= i < n ==> segments[..n][i] == segments[i];
    }
  }

  lemma {:induction false} AllTokensNoDirection(segments: seq<Segment>)
    requires forall i, j :: 0 <= i < |segments| && 0 <= j < |segments[i].tokens| ==> !segments[i].tokens[j].IsDirection()
    ensures forall k :: 0 <= k < |AllTokens(segments)| ==> !AllTokens(segments)[k].IsDirection()
    decreases |segments|
  {
    if |segments| > 0 {
      var n := |segments| - 1;
      assert forall i :: 0 <= i < n ==> segments[..n][i] == segments[i];
      AllTokensNoDirection(segments[..n]);
      var head, tail := AllTokens(segments[..n]), segments[n].tokens;
      assert forall k :: 0 <= k < |tail| ==> (head + tail)[|head| + k] == tail[k];
    }
  }

  /** Every token of the template agrees with the template's own data. */
  lemma OwnDataAgrees(t: PathTemplate, toInstant: Timestamp -> Instant)
    requires OneOfEach(AllTokens(t.segments)) && StampsDenoted(AllTokens(t.segments), toInstant)
    ensures forall i, j :: 0 <= i < |t.segments| && 0 <= j < |t.segments[i].tokens| ==>
      Agrees(t.segments[i].tokens[j], OwnData(t, toInstant))
  {
    var all := AllTokens(t.segments);
    var d := OwnData(t, toInstant);
    forall k | 0 <= k < |all|
      ensures Agrees(all[k], d)
    {
      CollectAgrees(all, toInstant, k);
    }
    AllTokensMembers(t.segments);
  }

  // ---------------------------------------------------------------------------
  // The round trip.

  /**
   * A template whose markers sit where the parser puts them, with no part of the data
   * filled in twice, resolves with its own data, after `with_up_down`, to its own path.
   */
  lemma ResolveOwnData(t: PathTemplate, toInstant: Timestamp -> Instant)
    requires |t.segments| > 0 && |t.segments[|t.segments| - 1].tokens| > 0
    requires MarkersPlaced(t)
    requires OneOfEach(AllTokens(t.segments)) && StampsDenoted(AllTokens(t.segments), toInstant)
    ensures ResolvedSegments(WithUpDownSpec(t), OwnData(t, toInstant)) == SegmentTexts(t)
    ensures ResolvePath(WithUpDownSpec(t), OwnData(t, toInstant)) == PathText(t)
  {
    var d := OwnData(t, toInstant);
    OwnDataAgrees(t, toInstant);
    TemplateResolvesToText(t, d);
    var last := t.segments[|t.segments| - 1].tokens;
    if |last| >= 2 && last[|last| - 2].IsDirection() {
      WithUpDownKeepsMarked(t);
    } else {
      AllTokensNoDirection(t.segments);
      CollectNoDirection(AllTokens(t.segments), toInstant);
      WithUpDownInvisible(t, d);
    }
  }

  /** With one segment the resolver as written completes the round trip too. */
  lemma ResolveOwnDataOneSegment(t: PathTemplate, toInstant: Timestamp -> Instant)
    requires |t.segments| == 1 && |t.segments[0].tokens| > 0
    requires MarkersPlaced(t)
    requires OneOfEach(AllTokens(t.segments)) && StampsDenoted(AllTokens(t.segments), toInstant)
    ensures Resolve(WithUpDownSpec(t), OwnData(t, toInstant)) == PathText(t)
  {
    ResolveOwnData(t, toInstant);
    SingleSegmentResolve(WithUpDownSpec(t), OwnData(t, toInstant));
  }

  /**
   * With a directory segment the resolver as written loses the round trip: the two
   * segments' texts run together and the `/` between them is missing.
   */
  lemma ResolveDropsSeparator(t: PathTemplate, toInstant: Timestamp -> Instant)
    requires |t.segments| == 2 && |t.segments[1].tokens| > 0
    requires MarkersPlaced(t)
    requires OneOfEach(AllTokens(t.segments)) && StampsDenoted(AllTokens(t.segments), toInstant)
    ensures Resolve(WithUpDownSpec(t), OwnData(t, toInstant)) == TokensText(t.segments[0].tokens) + TokensText(t.segments[1].tokens)
    ensures PathText(t) == TokensText(t.segments[0].tokens) + "/" + TokensText(t.segments[1].tokens)
    ensures Resolve(WithUpDownSpec(t), OwnData(t, toInstant)) != PathText(t)
  {
    var u := WithUpDownSpec(t);
    var d := OwnData(t, toInstant);
    ResolveOwnData(t, toInstant);
    var ss := ResolvedSegments(u, d);
    var texts := SegmentTexts(t);
    assert ss[..1][..0] == [] && ss[..1] == [ss[0]];
    assert texts[..1] == [texts[0]];
    assert Join(ss, "/") == ss[0] + "/" + ss[1];
    assert Join(texts, "/") == texts[0] + "/" + texts[1];
    assert Concat(ss) == Concat(ss[..1]) + ss[1];
    assert Concat(ss[..1]) == Concat(ss[..1][..0]) + ss[0];
    assert |Concat(ss)| < |PathText(t)|;
  }

  // ---------------------------------------------------------------------------
  // Parsed templates.

  /** Every template the parser accepts has its markers where the round trip needs them. */
  lemma ParsedTemplateShape(s: string)
    requires Parse(s).Some?
    ensures var t := Parse(s).value;
      |t.segments| > 0 && |t.segments[|t.segments| - 1].tokens| > 0 && MarkersPlaced(t)
  {
    PlacedByShape(Parse(s).value);
  }

  /** Markers only in the last segment, and there only before the final token, are where the round trip needs them. */
  lemma PlacedByShape(t: PathTemplate)
    requires ParsedShape(t.segments)
    ensures MarkersPlaced(t)
  {
  }

  /**
   * Parsing a path and resolving the template with the data its own tokens carry gives
   * the path back, in the separator-preserving resolver, when no part of the data is
   * filled in twice and the date library reads each timestamp as written.
   */
  lemma ParseResolveRoundTrip(s: string, toInstant: Timestamp -> Instant)
    requires Parse(s).Some?
    requires OneOfEach(AllTokens(Parse(s).value.segments)) && StampsDenoted(AllTokens(Parse(s).value.segments), toInstant)
    ensures ResolvePath(WithUpDownSpec(Parse(s).value), OwnData(Parse(s).value, toInstant)) == PathText(Parse(s).value)
  {
    ParsedTemplateShape(s);
    ResolveOwnData(Parse(s).value, toInstant);
  }
}
