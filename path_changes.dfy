/**
 * A template adapts to the data it is resolved with: changing the name, the counter, the
 * random number, the version or the direction changes the file name it resolves to.
 */
module PathChanges {
  import opened Wrappers
  import opened Text
  import opened PathAst
  import opened PathResolver
  import opened PathRoundTrip

  /** The token at `(i, j)` is the only one of the template that fills in `f`. */
  predicate Sole(t: PathTemplate, f: Field, i: int, j: int) {
    0 <= i < |t.segments| && 0 <= j < |t.segments[i].tokens| && FieldOf(t.segments[i].tokens[j]) == Some(f) &&
    forall a, b :: 0 <= a < |t.segments| && 0 <= b < |t.segments[a].tokens| && FieldOf(t.segments[a].tokens[b]) == Some(f) ==>
      a == i && b == j
  }

  /**
   * Data that changes the piece of one token and of no other changes the resolved path,
   * both with and without the separators between segments.
   */
  lemma OnePieceDiffers(t: PathTemplate, d: TemplateData, e: TemplateData, i: nat, j: nat)
    requires i < |t.segments| && j < |t.segments[i].tokens|
    requires forall a, b :: 0 <= a < |t.segments| && 0 <= b < |t.segments[a].tokens| && (a != i || b != j) ==>
      SegmentPieces(t.segments[a].tokens, d)[b] == SegmentPieces(t.segments[a].tokens, e)[b]
    requires SegmentPieces(t.segments[i].tokens, d)[j] != SegmentPieces(t.segments[i].tokens, e)[j]
    ensures ResolvePath(t, d) != ResolvePath(t, e)
    ensures Resolve(t, d) != Resolve(t, e)
  {
    var rd, re := ResolvedSegments(t, d), ResolvedSegments(t, e);
    forall a | 0 <= a < |t.segments| && a != i
      ensures rd[a] == re[a]
    {
      var tokens := t.segments[a].tokens;
      assert SegmentPieces(tokens, d) == SegmentPieces(tokens, e);
    }
    var tokens := t.segments[i].tokens;
    ConcatDiffersAtOne(SegmentPieces(tokens, d), SegmentPieces(tokens, e), j);
    JoinDiffersAtOne(rd, re, "/", i);
    ConcatDiffersAtOne(rd, re, i);
  }

  /**
   * Resolving with another name: when the template has exactly one name token, a
   * different name gives a different path.
   */
  lemma NameChangeVisible(t: PathTemplate, d: TemplateData, name: string, i: nat, j: nat)
    requires Sole(t, NameField, i, j)
    requires name != d.name
    ensures ResolvePath(t, d) != ResolvePath(t, d.(name := name))
    ensures Resolve(t, d) != Resolve(t, d.(name := name))
  {
    OnePieceDiffers(t, d, d.(name := name), i, j);
  }

  /**
   * Resolving with another counter: when the template has exactly one padded number and
   * the data already carries a counter, a different counter gives a different path.
   */
  lemma CounterChangeVisible(t: PathTemplate, d: TemplateData, counter: nat, i: nat, j: nat)
    requires Sole(t, CounterField, i, j)
    requires d.counter.Some? && counter != d.counter.value
    ensures ResolvePath(t, d) != ResolvePath(t, d.(counter := Some(counter)))
    ensures Resolve(t, d) != Resolve(t, d.(counter := Some(counter)))
  {
    OnePieceDiffers(t, d, d.(counter := Some(counter)), i, j);
  }

  /**
   * Resolving with another random number: when the template has exactly one random
   * number and the data already carries one, a different number gives a different path.
   */
  lemma RandomChangeVisible(t: PathTemplate, d: TemplateData, random: nat, i: nat, j: nat)
    requires Sole(t, RandomField, i, j)
    requires d.random.Some? && random != d.random.value
    ensures ResolvePath(t, d) != ResolvePath(t, d.(random := Some(random)))
    ensures Resolve(t, d) != Resolve(t, d.(random := Some(random)))
  {
    RandomPieceDiffers(t.segments[i].tokens, d, random, j);
    OnePieceDiffers(t, d, d.(random := Some(random)), i, j);
  }

  lemma RandomPieceDiffers(tokens: seq<Token>, d: TemplateData, random: nat, j: nat)
    requires j < |tokens| && tokens[j].RandomNumber?
    requires d.random.Some? && random != d.random.value
    ensures SegmentPieces(tokens, d)[j] != SegmentPieces(tokens, d.(random := Some(random)))[j]
  {
    DecimalIsDigits(d.random.value);
    DecimalIsDigits(random);
  }

  /** A version's number fits in `u32`, as the source's type guarantees. */
  predicate InU32(v: Semver) {
    v.major <= U32Max && v.minor <= U32Max && v.patch <= U32Max
  }

  /** The printed version reads back as the same three numbers. */
  lemma SemverTextValues(v: Semver)
    requires InU32(v)
    ensures SemverFromStr(SemverText(v)).Some?
    ensures var w := SemverFromStr(SemverText(v)).value; w.major == v.major && w.minor == v.minor && w.patch == v.patch
  {
    var a := PadLeft(Decimal(v.major), v.widths.0);
    var b := PadLeft(Decimal(v.minor), v.widths.1);
    var c := PadLeft(Decimal(v.patch), v.widths.2);
    PaddedDigits(v.major, v.widths.0);
    PaddedDigits(v.minor, v.widths.1);
    PaddedDigits(v.patch, v.widths.2);
    SemverPrintParse(a, b, c);
  }

  /** Versions that differ in a number print differently. */
  lemma SemverTextInjective(v: Semver, w: Semver)
    requires InU32(v) && InU32(w)
    requires (v.major, v.minor, v.patch) != (w.major, w.minor, w.patch)
    ensures SemverText(v) != SemverText(w)
  {
    SemverTextValues(v);
    SemverTextValues(w);
  }

  /**
   * Resolving with another version: when the template has exactly one version and the
   * data already carries one, a version with different numbers gives a different path.
   */
  lemma SemverChangeVisible(t: PathTemplate, d: TemplateData, v: Semver, i: nat, j: nat)
    requires Sole(t, SemverField, i, j)
    requires d.semver.Some? && InU32(d.semver.value) && InU32(v)
    requires (v.major, v.minor, v.patch) != (d.semver.value.major, d.semver.value.minor, d.semver.value.patch)
    ensures ResolvePath(t, d) != ResolvePath(t, d.(semver := Some(v)))
    ensures Resolve(t, d) != Resolve(t, d.(semver := Some(v)))
  {
    SemverTextInjective(d.semver.value, v);
    OnePieceDiffers(t, d, d.(semver := Some(v)), i, j);
  }

  // ---------------------------------------------------------------------------
  // Flipping the direction.

  /** The direction the adapted data names: up becomes down, down becomes up, none becomes up. */
  function Flipped(u: Option<UpDown>): (r: Option<UpDown>)
    ensures r.Some? && r != u
  {
    match u
    case Some(Up) => Some(Down)
    case Some(Down) => Some(Up)
    case None => Some(Up)
  }

  /** `e` names a direction whose words are longer than those of `d`'s: none before up, up before down. */
  predicate Louder(d: TemplateData, e: TemplateData) {
    e == d.(upDown := e.upDown) &&
    ((d.upDown.None? && e.upDown.Some?) || (d.upDown == Some(Up) && e.upDown == Some(Down)))
  }

  /** Each piece grows or stays, and every marker's piece grows. */
  lemma LouderPieces(tokens: seq<Token>, d: TemplateData, e: TemplateData)
    requires Louder(d, e)
    ensures forall k :: 0 <= k < |tokens| ==> |SegmentPieces(tokens, d)[k]| <= |SegmentPieces(tokens, e)[k]|
    ensures forall k :: 0 <= k < |tokens| && tokens[k].IsDirection() ==>
      |SegmentPieces(tokens, d)[k]| < |SegmentPieces(tokens, e)[k]|
  {
    forall k | 0 <= k < |tokens|
      ensures |SegmentPieces(tokens, d)[k]| <= |SegmentPieces(tokens, e)[k]|
      ensures tokens[k].IsDirection() ==> |SegmentPieces(tokens, d)[k]| < |SegmentPieces(tokens, e)[k]|
    {
      LouderToken(tokens[k], d, e);
    }
  }

  /** A louder direction prints a token no shorter, and a direction marker strictly longer. */
  lemma LouderToken(tok: Token, d: TemplateData, e: TemplateData)
    requires Louder(d, e)
    ensures |ResolveToken(tok, d)| <= |ResolveToken(tok, e)|
    ensures tok.IsDirection() ==> |ResolveToken(tok, d)| < |ResolveToken(tok, e)|
  {
  }

  /** A template with a marker resolves to a strictly longer path with louder data. */
  lemma LouderLonger(t: PathTemplate, d: TemplateData, e: TemplateData)
    requires Louder(d, e) && IncludesUpDown(t)
    ensures |ResolvePath(t, d)| < |ResolvePath(t, e)|
    ensures |Resolve(t, d)| < |Resolve(t, e)|
  {
    var i, j :| 0 <= i < |t.segments| && 0 <= j < |t.segments[i].tokens| && t.segments[i].tokens[j].IsDirection();
    var rd, re := ResolvedSegments(t, d), ResolvedSegments(t, e);
    forall a | 0 <= a < |t.segments|
      ensures |rd[a]| <= |re[a]|
    {
      var tokens := t.segments[a].tokens;
      LouderPieces(tokens, d, e);
      ConcatLength(SegmentPieces(tokens, d));
      ConcatLength(SegmentPieces(tokens, e));
      TotalLengthAtMost(SegmentPieces(tokens, d), SegmentPieces(tokens, e));
    }
    var tokens := t.segments[i].tokens;
    LouderPieces(tokens, d, e);
    ConcatLength(SegmentPieces(tokens, d));
    ConcatLength(SegmentPieces(tokens, e));
    TotalLengthLess(SegmentPieces(tokens, d), SegmentPieces(tokens, e), j);
    JoinShorter(rd, re, "/", i);
    ConcatLength(rd);
    ConcatLength(re);
    TotalLengthLess(rd, re, i);
  }

  /**
   * Flipping the direction changes the path of every template with a marker, and so of
   * every template after `with_up_down`.
   */
  lemma FlipVisible(t: PathTemplate, d: TemplateData)
    requires |t.segments| > 0
    ensures var u, e := WithUpDownSpec(t), d.(upDown := Flipped(d.upDown));
      ResolvePath(u, d) != ResolvePath(u, e) && Resolve(u, d) != Resolve(u, e)
  {
    var u, e := WithUpDownSpec(t), d.(upDown := Flipped(d.upDown));
    WithUpDownIncludes(t);
    if d.upDown == Some(Down) {
      LouderLonger(u, e, d);
    } else {
      LouderLonger(u, d, e);
    }
  }
}
