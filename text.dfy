/**
 * String helpers shared by the name generator and the path templates: joining,
 * decimal printing and parsing, zero padding, ASCII lower-casing and the UTF-8
 * byte length that Rust's `str::len` reports.
 */
module Text {
  import opened Wrappers

  /** `parts.join(sep)`; defined from the last part so that prefixes are easy to reason about. */
  function Join(parts: seq<string>, sep: string): string
    decreases |parts|
  {
    if |parts| == 0 then ""
    else if |parts| == 1 then parts[0]
    else Join(parts[..|parts| - 1], sep) + sep + parts[|parts| - 1]
  }

  /** Number of bytes the UTF-8 encoding of `c` takes. */
  function CharWidth(c: char): nat {
    if c as int < 0x80 then 1
    else if c as int < 0x800 then 2
    else if c as int < 0x1_0000 then 3
    else 4
  }

  /** Rust's `str::len`: the length of the UTF-8 encoding in bytes. */
  function Utf8Len(s: string): nat {
    if |s| == 0 then 0 else CharWidth(s[0]) + Utf8Len(s[1..])
  }

  lemma {:induction false} Utf8LenAppend(a: string, b: string)
    ensures Utf8Len(a + b) == Utf8Len(a) + Utf8Len(b)
  {
    if |a| > 0 {
      assert (a + b)[1..] == a[1..] + b;
      Utf8LenAppend(a[1..], b);
    } else {
      assert a + b == b;
    }
  }

  predicate IsAscii(s: string) {
    forall i :: 0 <= i < |s| ==> s[i] as int < 0x80
  }

  /** An ASCII string takes one byte per character. */
  lemma {:induction false} AsciiUtf8Len(s: string)
    requires IsAscii(s)
    ensures Utf8Len(s) == |s|
  {
    if |s| > 0 {
      AsciiUtf8Len(s[1..]);
    }
  }

  /** Every character takes between one and four bytes. */
  lemma {:induction false} Utf8LenBounds(s: string)
    ensures |s| <= Utf8Len(s) <= 4 * |s|
  {
    if |s| > 0 {
      Utf8LenBounds(s[1..]);
    }
  }

  /** A string is empty exactly when its byte length is zero. */
  lemma Utf8LenZero(s: string)
    ensures Utf8Len(s) == 0 <==> s == []
  {
  }

  /** Joining one more part never makes the joined string shorter. */
  lemma {:induction false} JoinGrows(parts: seq<string>, sep: string, k: nat, j: nat)
    requires k <= j <= |parts|
    ensures Utf8Len(Join(parts[..k], sep)) <= Utf8Len(Join(parts[..j], sep))
    decreases j - k
  {
    if k < j {
      JoinGrows(parts, sep, k, j - 1);
      var front := parts[..j];
      assert front[..j - 1] == parts[..j - 1];
      if j == 1 {
        assert parts[..0] == [];
      } else {
        Utf8LenAppend(Join(parts[..j - 1], sep) + sep, parts[j - 1]);
        Utf8LenAppend(Join(parts[..j - 1], sep), sep);
      }
    }
  }

  /** The joined string is empty when there are no parts. */
  lemma JoinEmpty(sep: string)
    ensures Join([], sep) == ""
  {
  }

  predicate IsDigit(c: char) {
    '0' <= c <= '9'
  }

  predicate AllDigits(s: string) {
    forall i :: 0 <= i < |s| ==> IsDigit(s[i])
  }

  function DigitChar(d: nat): (c: char)
    requires d < 10
    ensures IsDigit(c)
  {
    ('0' as int + d) as char
  }

  function DigitValue(c: char): nat
    requires IsDigit(c)
  {
    c as int - '0' as int
  }

  /** The number that a string of decimal digits denotes (most significant digit first). */
  function DigitsValue(s: string): nat
    requires AllDigits(s)
  {
    if |s| == 0 then 0 else DigitsValue(s[..|s| - 1]) * 10 + DigitValue(s[|s| - 1])
  }

  /** Rust's `Display` of an unsigned integer: decimal digits, no leading zero. */
  function Decimal(n: nat): string
  {
    if n < 10 then [DigitChar(n)] else Decimal(n / 10) + [DigitChar(n % 10)]
  }

  /** Rust's `Display` of a signed integer. */
  function IntToString(i: int): string {
    if i < 0 then "-" + Decimal(-i) else Decimal(i)
  }

  function Zeros(n: nat): (z: string)
    ensures |z| == n && forall i :: 0 <= i < n ==> z[i] == '0'
  {
    if n == 0 then "" else Zeros(n - 1) + "0"
  }

  /** `format!("{:0>w$}", s)`: pads `s` on the left with '0' up to `w` characters, never truncates. */
  function PadLeft(s: string, w: nat): string {
    if |s| >= w then s else Zeros(w - |s|) + s
  }

  /** `format!("{:0w$}", i)` for a signed integer: the sign comes before the zero padding. */
  function FormatSigned(i: int, w: nat): string {
    if i < 0 then "-" + PadLeft(Decimal(-i), if w > 0 then w - 1 else 0)
    else PadLeft(Decimal(i), w)
  }

  /**
   * Rust's `str::parse` for an unsigned integer type whose largest value is `max`:
   * an optional '+', then at least one decimal digit, and a value that fits.
   */
  function ParseUnsigned(s: string, max: nat): (r: Option<nat>)
    ensures r.Some? ==> r.value <= max
    ensures r.Some? && AllDigits(s) ==> |s| > 0 && r.value == DigitsValue(s)
  {
    var digits := if |s| > 0 && s[0] == '+' then s[1..] else s;
    if |digits| > 0 && AllDigits(digits) && DigitsValue(digits) <= max then
      Some(DigitsValue(digits))
    else
      None
  }

  /** `str::to_lowercase` restricted to ASCII letters, which is all SQL keywords use. */
  function AsciiLower(s: string): (r: string)
    ensures |r| == |s|
  {
    if |s| == 0 then ""
    else [if 'A' <= s[0] <= 'Z' then (s[0] as int + 32) as char else s[0]] + AsciiLower(s[1..])
  }

  // ---------------------------------------------------------------------------
  // Properties of decimal printing and parsing.

  lemma {:induction false} DecimalIsDigits(n: nat)
    ensures |Decimal(n)| > 0 && AllDigits(Decimal(n))
    ensures DigitsValue(Decimal(n)) == n
    ensures |Decimal(n)| > 1 ==> Decimal(n)[0] != '0'
  {
    var s := Decimal(n);
    if n >= 10 {
      DecimalIsDigits(n / 10);
      assert s[..|s| - 1] == Decimal(n / 10);
    }
  }

  /** A digit string denoting zero consists of zeros only. */
  lemma {:induction false} ZeroValueIsZeros(d: string)
    requires AllDigits(d) && DigitsValue(d) == 0
    ensures d == Zeros(|d|)
  {
    if |d| > 0 {
      ZeroValueIsZeros(d[..|d| - 1]);
      assert d == d[..|d| - 1] + [d[|d| - 1]];
    }
  }

  lemma {:induction false} DecimalLength(d: string)
    requires AllDigits(d) && |d| > 0
    ensures |Decimal(DigitsValue(d))| <= |d|
  {
    var v := DigitsValue(d);
    if |d| > 1 {
      DecimalLength(d[..|d| - 1]);
      if v >= 10 {
        assert v / 10 == DigitsValue(d[..|d| - 1]);
      }
    }
  }

  /**
   * Printing the value of a digit string zero-padded to the string's own length gives the
   * string back: the width remembers the leading zeros.
   */
  lemma {:induction false} PadDecimalRoundTrip(d: string)
    requires AllDigits(d) && |d| > 0
    ensures PadLeft(Decimal(DigitsValue(d)), |d|) == d
  {
    var init, last := d[..|d| - 1], d[|d| - 1];
    assert d == init + [last];
    var v := DigitsValue(d);
    if |init| == 0 {
      assert v == DigitValue(last);
    } else if v < 10 {
      ZeroValueIsZeros(init);
      assert Decimal(v) == [last];
    } else {
      var v' := DigitsValue(init);
      assert v / 10 == v' && v % 10 == DigitValue(last);
      assert Decimal(v) == Decimal(v') + [last];
      PadDecimalRoundTrip(init);
      DecimalLength(init);
      PadAppend(Decimal(v'), |init|, last);
    }
  }

  /** Padding a string and then appending a character is padding the longer string one wider. */
  lemma PadAppend(s: string, w: nat, c: char)
    requires |s| <= w
    ensures PadLeft(s, w) + [c] == PadLeft(s + [c], w + 1)
  {
    assert Zeros(w - |s|) + s + [c] == Zeros(w - |s|) + (s + [c]);
  }

  /** The parsed value of an all-digit string prints back to it when padded to its width. */
  lemma ParsePrintRoundTrip(d: string, max: nat)
    requires AllDigits(d) && ParseUnsigned(d, max).Some?
    ensures PadLeft(Decimal(ParseUnsigned(d, max).value), |d|) == d
  {
    PadDecimalRoundTrip(d);
  }

  /** Printing then parsing gives the number back. */
  lemma PrintParseRoundTrip(n: nat, max: nat)
    requires n <= max
    ensures ParseUnsigned(Decimal(n), max) == Some(n)
  {
    DecimalIsDigits(n);
  }

  lemma {:induction false} DecimalInjective(m: nat, n: nat)
    requires Decimal(m) == Decimal(n)
    ensures m == n
  {
    DecimalIsDigits(m);
    DecimalIsDigits(n);
  }

  lemma {:induction false} ZerosValue(k: nat)
    ensures AllDigits(Zeros(k)) && DigitsValue(Zeros(k)) == 0
  {
    if k > 0 {
      ZerosValue(k - 1);
      var z := Zeros(k);
      assert z[..k - 1] == Zeros(k - 1);
      assert DigitValue(z[k - 1]) == 0;
      assert DigitsValue(z) == DigitsValue(Zeros(k - 1)) * 10 + 0;
    }
  }

  /** Leading zeros do not change the value of a digit string. */
  lemma {:induction false} LeadingZerosValue(k: nat, d: string)
    requires AllDigits(d)
    ensures AllDigits(Zeros(k) + d) && DigitsValue(Zeros(k) + d) == DigitsValue(d)
  {
    ZerosValue(k);
    if |d| == 0 {
      assert Zeros(k) + d == Zeros(k);
    } else {
      LeadingZerosValue(k, d[..|d| - 1]);
      assert (Zeros(k) + d)[..|Zeros(k) + d| - 1] == Zeros(k) + d[..|d| - 1];
    }
  }

  /** A zero-padded decimal is at least as wide as asked and reads back as its number. */
  lemma PaddedDigits(n: nat, width: nat)
    ensures var r := PadLeft(Decimal(n), width); |r| >= width && |r| > 0 && AllDigits(r) && DigitsValue(r) == n
  {
    DecimalIsDigits(n);
    if |Decimal(n)| < width {
      LeadingZerosValue(width - |Decimal(n)|, Decimal(n));
    }
  }

  /** Zero-padded decimal printing is injective, whatever the width. */
  lemma PadDecimalInjective(m: nat, n: nat, w: nat)
    requires PadLeft(Decimal(m), w) == PadLeft(Decimal(n), w)
    ensures m == n
  {
    PaddedDigits(m, w);
    PaddedDigits(n, w);
  }

  // ---------------------------------------------------------------------------
  // Concatenation of a sequence of strings (`collect::<String>()`).

  function Concat(ss: seq<string>): string
    decreases |ss|
  {
    if |ss| == 0 then "" else Concat(ss[..|ss| - 1]) + ss[|ss| - 1]
  }

  lemma {:induction false} ConcatAppend(a: seq<string>, b: seq<string>)
    ensures Concat(a + b) == Concat(a) + Concat(b)
    decreases |b|
  {
    if |b| == 0 {
      assert a + b == a;
    } else {
      var front, last := b[..|b| - 1], b[|b| - 1];
      ConcatAppend(a, front);
      assert (a + b)[..|a + b| - 1] == a + front;
      assert (a + b)[|a + b| - 1] == last;
      calc {
        Concat(a + b);
        Concat(a + front) + last;
        Concat(a) + Concat(front) + last;
        Concat(a) + (Concat(front) + last);
      }
    }
  }

  /** The length of a concatenation is the sum of the lengths of its pieces. */
  function TotalLength(ss: seq<string>): nat
    decreases |ss|
  {
    if |ss| == 0 then 0 else TotalLength(ss[..|ss| - 1]) + |ss[|ss| - 1]|
  }

  lemma {:induction false} ConcatLength(ss: seq<string>)
    ensures |Concat(ss)| == TotalLength(ss)
    decreases |ss|
  {
    if |ss| > 0 {
      ConcatLength(ss[..|ss| - 1]);
    }
  }

  /**
   * Pieces that are each at least as long as their counterparts, one of them strictly
   * longer, concatenate to a strictly longer string.
   */
  lemma {:induction false} TotalLengthLess(p: seq<string>, q: seq<string>, j: nat)
    requires |p| == |q| && j < |p|
    requires forall i :: 0 <= i < |p| ==> |p[i]| <= |q[i]|
    requires |p[j]| < |q[j]|
    ensures TotalLength(p) < TotalLength(q)
    decreases |p|
  {
    var n := |p| - 1;
    if j < n {
      TotalLengthLess(p[..n], q[..n], j);
    } else {
      TotalLengthAtMost(p[..n], q[..n]);
    }
  }

  lemma {:induction false} TotalLengthAtMost(p: seq<string>, q: seq<string>)
    requires |p| == |q|
    requires forall i :: 0 <= i < |p| ==> |p[i]| <= |q[i]|
    ensures TotalLength(p) <= TotalLength(q)
    decreases |p|
  {
    if |p| > 0 {
      TotalLengthAtMost(p[..|p| - 1], q[..|q| - 1]);
    }
  }

  /** Two piece lists that differ in exactly one place concatenate to different strings. */
  lemma ConcatDiffersAtOne(p: seq<string>, q: seq<string>, j: nat)
    requires |p| == |q| && j < |p|
    requires forall i :: 0 <= i < |p| && i != j ==> p[i] == q[i]
    requires p[j] != q[j]
    ensures Concat(p) != Concat(q)
  {
    ConcatAround(p, j);
    ConcatAround(q, j);
    assert p[..j] == q[..j];
    assert p[j + 1..] == q[j + 1..];
    MiddleDiffers(Concat(p[..j]), p[j], q[j], Concat(p[j + 1..]));
  }

  /** The concatenation split around one of its pieces. */
  lemma ConcatAround(p: seq<string>, j: nat)
    requires j < |p|
    ensures Concat(p) == Concat(p[..j]) + p[j] + Concat(p[j + 1..])
  {
    SplitAt(p, j);
    ConcatThree(p[..j], p[j], p[j + 1..]);
  }

  lemma ConcatThree(front: seq<string>, x: string, back: seq<string>)
    ensures Concat(front + [x] + back) == Concat(front) + x + Concat(back)
  {
    ConcatAppend(front + [x], back);
    ConcatAppend(front, [x]);
    ConcatOne(x);
  }

  lemma ConcatOne(x: string)
    ensures Concat([x]) == x
  {
    assert [x][..0] == [];
  }

  /** Strings that differ only in their middle part differ. */
  lemma MiddleDiffers(a: string, x: string, y: string, b: string)
    requires x != y
    ensures a + x + b != a + y + b
  {
    if |x| == |y| {
      assert (a + x + b)[|a|..|a| + |x|] == x;
      assert (a + y + b)[|a|..|a| + |y|] == y;
    }
  }

  /** The pieces `parts.join(sep)` is made of: every part after the first has the separator in front. */
  function Separated(parts: seq<string>, sep: string): (r: seq<string>)
    ensures |r| == |parts|
  {
    seq(|parts|, i requires 0 <= i < |parts| => if i == 0 then parts[i] else sep + parts[i])
  }

  lemma {:induction false} JoinAsConcat(parts: seq<string>, sep: string)
    ensures Join(parts, sep) == Concat(Separated(parts, sep))
    decreases |parts|
  {
    var n := |parts|;
    if n == 1 {
      assert Separated(parts, sep)[..0] == [];
    } else if n > 1 {
      JoinAsConcat(parts[..n - 1], sep);
      assert Separated(parts, sep)[..n - 1] == Separated(parts[..n - 1], sep);
    }
  }

  /** Joining parts that differ in exactly one place gives different strings. */
  lemma JoinDiffersAtOne(p: seq<string>, q: seq<string>, sep: string, j: nat)
    requires |p| == |q| && j < |p|
    requires forall i :: 0 <= i < |p| && i != j ==> p[i] == q[i]
    requires p[j] != q[j]
    ensures Join(p, sep) != Join(q, sep)
  {
    JoinAsConcat(p, sep);
    JoinAsConcat(q, sep);
    var sp, sq := Separated(p, sep), Separated(q, sep);
    if j > 0 {
      assert sp[j][|sep|..] == p[j] && sq[j][|sep|..] == q[j];
    }
    ConcatDiffersAtOne(sp, sq, j);
  }

  /** Joining parts that are each no longer, and in one place shorter, gives a shorter string. */
  lemma JoinShorter(p: seq<string>, q: seq<string>, sep: string, j: nat)
    requires |p| == |q| && j < |p|
    requires forall i :: 0 <= i < |p| ==> |p[i]| <= |q[i]|
    requires |p[j]| < |q[j]|
    ensures |Join(p, sep)| < |Join(q, sep)|
  {
    JoinAsConcat(p, sep);
    JoinAsConcat(q, sep);
    ConcatLength(Separated(p, sep));
    ConcatLength(Separated(q, sep));
    TotalLengthLess(Separated(p, sep), Separated(q, sep), j);
  }

  // ---------------------------------------------------------------------------
  // Splitting (`str::splitn`).

  /** The index of the first occurrence of `c` in `s`. */
  function IndexOf(s: string, c: char): (r: Option<nat>)
    ensures r.Some? ==> r.value < |s| && s[r.value] == c && c !in s[..r.value]
    ensures r.None? <==> c !in s
  {
    if |s| == 0 then None
    else if s[0] == c then Some(0)
    else
      match IndexOf(s[1..], c)
      case None => None
      case Some(i) =>
        assert s[..i + 1] == [s[0]] + s[1..][..i];
        Some(i + 1)
  }

  /** The first occurrence is the one with no earlier occurrence. */
  lemma IndexOfFirst(s: string, c: char, k: nat)
    requires k < |s| && s[k] == c && c !in s[..k]
    ensures IndexOf(s, c) == Some(k)
  {
    assert s[k] in s;
  }

  /** Digits within the bound parse to their value. */
  lemma ParseDigits(d: string, max: nat)
    requires |d| > 0 && AllDigits(d) && DigitsValue(d) <= max
    ensures ParseUnsigned(d, max) == Some(DigitsValue(d))
  {
    assert IsDigit(d[0]);
  }

  /** A string `parse` accepts as unsigned that does not start with '+' is all digits. */
  lemma UnsignedDigits(s: string, max: nat)
    requires ParseUnsigned(s, max).Some? && '+' !in s
    ensures AllDigits(s) && |s| > 0
  {
    if |s| > 0 {
      assert s[0] in s;
    }
  }

  /** `s.splitn(n, c)`: at most `n` pieces; the last one keeps any further separators. */
  function SplitN(s: string, c: char, n: nat): (r: seq<string>)
    requires n >= 1
    ensures 1 <= |r| <= n
    decreases n
  {
    if n == 1 then [s]
    else
      match IndexOf(s, c)
      case None => [s]
      case Some(i) => [s[..i]] + SplitN(s[i + 1..], c, n - 1)
  }

  /** The pieces of `splitn` put back together with the separator give the original string. */
  lemma {:induction false} SplitNJoin(s: string, c: char, n: nat)
    requires n >= 1
    ensures Join(SplitN(s, c, n), [c]) == s
    decreases n
  {
    if n > 1 && IndexOf(s, c).Some? {
      var i := IndexOf(s, c).value;
      var left, right := s[..i], s[i + 1..];
      var rest := SplitN(right, c, n - 1);
      assert SplitN(s, c, n) == [left] + rest;
      SplitNJoin(right, c, n - 1);
      JoinCons(left, rest, [c]);
      SplitAt(s, i);
    } else {
      assert SplitN(s, c, n) == [s];
    }
  }

  lemma JoinThree(parts: seq<string>, sep: string)
    requires |parts| == 3
    ensures Join(parts, sep) == parts[0] + sep + parts[1] + sep + parts[2]
  {
    assert parts[..2][..1] == [parts[0]];
    assert Join(parts[..2], sep) == parts[0] + sep + parts[1];
  }

  /** A string is the part before a position, the character there and the part after. */
  lemma SplitAt<T>(s: seq<T>, i: nat)
    requires i < |s|
    ensures s == s[..i] + [s[i]] + s[i + 1..]
  {
  }

  /** Every piece but the last is free of the separator. */
  lemma {:induction false} SplitNPieces(s: string, c: char, n: nat)
    requires n >= 1
    ensures forall i :: 0 <= i < |SplitN(s, c, n)| - 1 ==> c !in SplitN(s, c, n)[i]
    decreases n
  {
    if n > 1 && IndexOf(s, c).Some? {
      var i := IndexOf(s, c).value;
      var rest := SplitN(s[i + 1..], c, n - 1);
      var r := [s[..i]] + rest;
      assert SplitN(s, c, n) == r;
      SplitNPieces(s[i + 1..], c, n - 1);
      assert forall k :: 1 <= k < |r| ==> r[k] == rest[k - 1];
    }
  }

  lemma {:induction false} JoinCons(x: string, rest: seq<string>, sep: string)
    requires |rest| > 0
    ensures Join([x] + rest, sep) == x + sep + Join(rest, sep)
    decreases |rest|
  {
    var all := [x] + rest;
    if |rest| == 1 {
      assert all[..1] == [x];
    } else {
      JoinCons(x, rest[..|rest| - 1], sep);
      assert all[..|all| - 1] == [x] + rest[..|rest| - 1];
    }
  }
}
