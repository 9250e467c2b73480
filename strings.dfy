/** The parts of Go's `strings` package and string ordering the core relies on.
    A Go string is modelled as a sequence of Unicode code points. */
module Strings {

  /** Glue the parts back together, one separator between neighbours. */
  function Join(parts: seq<string>, sep: char): string
    requires |parts| >= 1
    decreases |parts|
  {
    if |parts| == 1 then parts[0] else parts[0] + [sep] + Join(parts[1..], sep)
  }

  /** `strings.Split(s, sep)` for a one-character separator: the pieces between
      the occurrences of `sep`. The empty string gives one empty piece. */
  function Split(s: string, sep: char): (parts: seq<string>)
    ensures |parts| >= 1
    ensures forall i :: 0 <= i < |parts| ==> sep !in parts[i]
    ensures Join(parts, sep) == s
    decreases |s|
  {
    if |s| == 0 then [""]
    else
      var rest := Split(s[1..], sep);
      if s[0] == sep then
        assert ([""] + rest)[1..] == rest;
        [""] + rest
      else
        var parts := [[s[0]] + rest[0]] + rest[1..];
        assert parts[1..] == rest[1..];
        assert s == [s[0]] + s[1..];
        parts
  }

  /** Splitting a piece free of the separator gives that piece alone. */
  lemma {:induction false} SplitNoSeparator(p: string, sep: char)
    requires sep !in p
    ensures Split(p, sep) == [p]
    decreases |p|
  {
    if |p| > 0 {
      assert sep !in p[1..];
      SplitNoSeparator(p[1..], sep);
      assert [p[0]] + p[1..] == p;
    }
  }

  /** A separator-free prefix followed by the separator becomes the first piece. */
  lemma {:induction false} SplitAfterPiece(p: string, sep: char, t: string)
    requires sep !in p
    ensures Split(p + [sep] + t, sep) == [p] + Split(t, sep)
    decreases |p|
  {
    var s := p + [sep] + t;
    if |p| == 0 {
      assert s[1..] == t;
    } else {
      assert s[1..] == p[1..] + [sep] + t;
      assert sep !in p[1..];
      SplitAfterPiece(p[1..], sep, t);
      assert [p[0]] + p[1..] == p;
    }
  }

  /** Split inverts Join: separator-free pieces are recovered exactly. */
  lemma {:induction false} SplitJoin(parts: seq<string>, sep: char)
    requires |parts| >= 1
    requires forall i :: 0 <= i < |parts| ==> sep !in parts[i]
    ensures Split(Join(parts, sep), sep) == parts
    decreases |parts|
  {
    if |parts| == 1 {
      SplitNoSeparator(parts[0], sep);
    } else {
      SplitJoin(parts[1..], sep);
      SplitAfterPiece(parts[0], sep, Join(parts[1..], sep));
      assert [parts[0]] + parts[1..] == parts;
    }
  }

  /** `strings.Split(s, "")`: one piece per code point; empty only for "". */
  function Explode(s: string): seq<string>
  {
    seq(|s|, i requires 0 <= i < |s| => [s[i]])
  }

  /** Go's `a < b` on strings: lexicographic, a proper prefix sorting first.
      Comparing code points gives the same order as Go's byte-wise comparison
      of the UTF-8 encodings. */
  predicate LexLess(a: string, b: string)
    decreases |a|
  {
    if |a| == 0 then |b| > 0
    else if |b| == 0 then false
    else if a[0] != b[0] then a[0] < b[0]
    else LexLess(a[1..], b[1..])
  }

  /** Go's `a <= b` on strings. */
  predicate LexLessEq(a: string, b: string)
  {
    a == b || LexLess(a, b)
  }

  /** `a` is a proper prefix of `b`. */
  ghost predicate ProperPrefix(a: string, b: string)
  {
    |a| < |b| && a == b[..|a|]
  }

  /** `a` and `b` agree before position `k` and `a` is smaller at `k`. */
  ghost predicate FirstDifferenceAt(a: string, b: string, k: int)
  {
    0 <= k < |a| && k < |b| && a[..k] == b[..k] && a[k] < b[k]
  }

  /** LexLess agrees with the textbook definition: `a` is a proper prefix of
      `b`, or at the first position where they differ `a` is smaller. */
  lemma {:induction false} LexLessFirstDifference(a: string, b: string)
    ensures LexLess(a, b) <==>
      ProperPrefix(a, b) || exists k :: FirstDifferenceAt(a, b, k)
    decreases |a|
  {
    if |a| > 0 && |b| > 0 && a[0] == b[0] {
      var a', b' := a[1..], b[1..];
      LexLessFirstDifference(a', b');
      if ProperPrefix(a, b) {
        assert a' == b'[..|a'|];
        assert ProperPrefix(a', b');
      }
      if ProperPrefix(a', b') {
        assert a == [a[0]] + a' && b[..|a|] == [b[0]] + b'[..|a'|];
        assert ProperPrefix(a, b);
      }
      if k :| FirstDifferenceAt(a, b, k) {
        assert a[..k][0] == a[0];
        assert k != 0;
        assert a'[..k - 1] == a[..k][1..] && b'[..k - 1] == b[..k][1..];
        assert FirstDifferenceAt(a', b', k - 1);
      }
      if k :| FirstDifferenceAt(a', b', k) {
        assert a[..k + 1] == [a[0]] + a'[..k] && b[..k + 1] == [b[0]] + b'[..k];
        assert FirstDifferenceAt(a, b, k + 1);
      }
    } else if |a| > 0 && |b| > 0 {
      assert a[..0] == b[..0];
      assert a[0] < b[0] ==> FirstDifferenceAt(a, b, 0);
      assert !ProperPrefix(a, b) by {
        assert |a| < |b| ==> b[..|a|][0] == b[0];
      }
      forall k | a[0] > b[0]
        ensures !FirstDifferenceAt(a, b, k)
      {
        if 0 < k <= |a| && k <= |b| {
          assert a[..k][0] == a[0] && b[..k][0] == b[0];
        }
      }
    }
  }

  lemma {:induction false} LexLessIrreflexive(a: string)
    ensures !LexLess(a, a)
    decreases |a|
  {
    if |a| > 0 {
      LexLessIrreflexive(a[1..]);
    }
  }

  lemma {:induction false} LexLessTransitive(a: string, b: string, c: string)
    requires LexLess(a, b) && LexLess(b, c)
    ensures LexLess(a, c)
    decreases |a|
  {
    if |a| > 0 && a[0] == b[0] && b[0] == c[0] {
      LexLessTransitive(a[1..], b[1..], c[1..]);
    }
  }

  /** Any two different strings are ordered one way or the other. */
  lemma {:induction false} LexLessTotal(a: string, b: string)
    requires a != b
    ensures LexLess(a, b) || LexLess(b, a)
    decreases |a|
  {
    if |a| > 0 && |b| > 0 && a[0] == b[0] {
      assert a == [a[0]] + a[1..] && b == [b[0]] + b[1..];
      LexLessTotal(a[1..], b[1..]);
    }
  }

  lemma {:induction false} LexLessAsymmetric(a: string, b: string)
    ensures LexLess(a, b) ==> !LexLess(b, a)
    decreases |a|
  {
    if |a| > 0 && |b| > 0 && a[0] == b[0] {
      LexLessAsymmetric(a[1..], b[1..]);
    }
  }

  /** So `!(b < a)` is exactly `a <= b`. */
  lemma NotLexLessIsLessEq(a: string, b: string)
    ensures !LexLess(b, a) <==> LexLessEq(a, b)
  {
    LexLessIrreflexive(a);
    LexLessAsymmetric(a, b);
    if a != b {
      LexLessTotal(a, b);
    }
  }
}
