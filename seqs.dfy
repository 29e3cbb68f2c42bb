/** Order-preserving filtering of sequences, as Rust's `Vec::retain` and `Iterator::filter` do it. */
module Seqs {

  /** `a` is obtained from `b` by deleting elements, keeping the order of the rest. */
  ghost predicate Subsequence<T>(a: seq<T>, b: seq<T>)
    decreases |b|
  {
    |a| <= |b| &&
    (|a| == 0 || (a[0] == b[0] && Subsequence(a[1..], b[1..])) || Subsequence(a, b[1..]))
  }

  /** The elements of `s` for which `keep` holds, in their original order. */
  function Retain<T(!new)>(s: seq<T>, keep: T -> bool): (r: seq<T>)
    ensures |r| <= |s|
    ensures forall x :: x in r <==> x in s && keep(x)
    ensures (forall x :: x in s ==> keep(x)) ==> r == s
    ensures (forall x :: x in s ==> !keep(x)) ==> r == []
    ensures Subsequence(r, s)
  {
    if |s| == 0 then []
    else
      var rest := Retain(s[1..], keep);
      assert forall x :: x in s <==> x == s[0] || x in s[1..];
      if keep(s[0]) then
        assert ([s[0]] + rest)[1..] == rest;
        [s[0]] + rest
      else
        rest
  }

  /**
   * Each kept value occurs in `Retain(s, keep)` exactly as often as in `s`, and no other
   * value occurs; together with `Subsequence` this pins the result down to exactly the
   * kept positions of `s`, so no repeated element is lost.
   */
  lemma {:induction false} RetainCount<T(!new)>(s: seq<T>, keep: T -> bool, x: T)
    ensures multiset(Retain(s, keep))[x] == if keep(x) then multiset(s)[x] else 0
  {
    if |s| > 0 {
      var tail := Retain(s[1..], keep);
      RetainCount(s[1..], keep, x);
      HeadCount(s, x);
      if keep(s[0]) {
        var r := [s[0]] + tail;
        assert Retain(s, keep) == r && r[0] == s[0] && r[1..] == tail;
        HeadCount(r, x);
      } else {
        assert Retain(s, keep) == tail;
      }
    }
  }

  /** The count of `x` in `s` is that of its head plus that of its tail. */
  lemma HeadCount<T>(s: seq<T>, x: T)
    requires |s| > 0
    ensures multiset(s)[x] == (if s[0] == x then 1 else 0) + multiset(s[1..])[x]
  {
    assert s == [s[0]] + s[1..];
  }

  /** `s` with `f` applied to every element. */
  function Map<T, U>(s: seq<T>, f: T -> U): seq<U> {
    seq(|s|, i requires 0 <= i < |s| => f(s[i]))
  }

  /** Filtering then mapping equals mapping then filtering, when the filter sees only the image. */
  lemma {:induction false} MapRetain<T(!new), U(!new)>(s: seq<T>, keep: T -> bool, f: T -> U, keepImage: U -> bool)
    requires forall x :: keep(x) == keepImage(f(x))
    ensures Map(Retain(s, keep), f) == Retain(Map(s, f), keepImage)
  {
    if |s| > 0 {
      var image := Map(s, f);
      var tail := Retain(s[1..], keep);
      MapRetain(s[1..], keep, f, keepImage);
      assert image[0] == f(s[0]) && image[1..] == Map(s[1..], f);
      assert keep(s[0]) == keepImage(image[0]);
      if keep(s[0]) {
        MapCons(s[0], tail, f);
      }
    }
  }

  lemma MapCons<T, U>(h: T, t: seq<T>, f: T -> U)
    ensures Map([h] + t, f) == [f(h)] + Map(t, f)
  {
  }

  lemma {:induction false} RetainAppend<T(!new)>(a: seq<T>, b: seq<T>, keep: T -> bool)
    ensures Retain(a + b, keep) == Retain(a, keep) + Retain(b, keep)
  {
    if |a| > 0 {
      assert (a + b)[1..] == a[1..] + b;
      RetainAppend(a[1..], b, keep);
    } else {
      assert a + b == b;
    }
  }

  /** Every element of a subsequence comes from the original sequence. */
  lemma {:induction false} SubsequenceMembers<T(!new)>(a: seq<T>, b: seq<T>)
    requires Subsequence(a, b)
    ensures forall x :: x in a ==> x in b
    decreases |b|
  {
    if |a| > 0 {
      if a[0] == b[0] && Subsequence(a[1..], b[1..]) {
        SubsequenceMembers(a[1..], b[1..]);
        assert forall x :: x in a ==> x == a[0] || x in a[1..];
      } else {
        SubsequenceMembers(a, b[1..]);
      }
    }
  }

  /** A value occurs in a non-empty sequence exactly when it is the head or occurs later. */
  lemma SomeSplits<T>(ys: seq<T>, y: T)
    requires |ys| > 0
    ensures (exists i :: 0 <= i < |ys| && ys[i] == y) <==> ys[0] == y || exists i :: 0 <= i < |ys[1..]| && ys[1..][i] == y
  {
    if exists i :: 0 <= i < |ys| && ys[i] == y {
      var i :| 0 <= i < |ys| && ys[i] == y;
      if i > 0 {
        assert ys[1..][i - 1] == y;
      }
    }
    if exists i :: 0 <= i < |ys[1..]| && ys[1..][i] == y {
      var i :| 0 <= i < |ys[1..]| && ys[1..][i] == y;
      assert ys[i + 1] == y;
    }
  }
}
