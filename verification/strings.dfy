/** Python's ordering of `str` values (lexicographic by code point) and
    `str.split` on a single separator character. */
module Strings {

  /** `a < b` on Python strings. */
  predicate StrLess(a: string, b: string)
    ensures |a| < |b| && a == b[..|a|] ==> StrLess(a, b)
    ensures a != [] && b != [] && a[0] < b[0] ==> StrLess(a, b)
    decreases |a|
  {
    if a == [] then b != []
    else if b == [] then false
    else a[0] < b[0] || (a[0] == b[0] && StrLess(a[1..], b[1..]))
  }

  lemma {:induction false} StrLessIrreflexive(a: string)
    ensures !StrLess(a, a)
    decreases |a|
  {
    if a != [] {
      StrLessIrreflexive(a[1..]);
    }
  }

  lemma {:induction false} StrLessTransitive(a: string, b: string, c: string)
    requires StrLess(a, b) && StrLess(b, c)
    ensures StrLess(a, c)
    decreases |a|
  {
    if a != [] && a[0] == b[0] && b[0] == c[0] {
      StrLessTransitive(a[1..], b[1..], c[1..]);
    }
  }

  lemma {:induction false} StrLessTotal(a: string, b: string)
    ensures a == b || StrLess(a, b) || StrLess(b, a)
    decreases |a|
  {
    if a != [] && b != [] && a[0] == b[0] {
      StrLessTotal(a[1..], b[1..]);
      if a[1..] == b[1..] {
        assert a == [a[0]] + a[1..] && b == [b[0]] + b[1..];
      }
    }
  }

  /** `s` contains no `sep`. */
  predicate NoSep(s: string, sep: char) {
    forall j :: 0 <= j < |s| ==> s[j] != sep
  }

  /** Position of the first `sep` in `s`, or `|s|` when there is none. */
  function FindSep(s: string, sep: char): (i: nat)
    ensures i <= |s| && NoSep(s[..i], sep)
    ensures i < |s| ==> s[i] == sep
  {
    if s == [] then 0
    else if s[0] == sep then 0
    else 1 + FindSep(s[1..], sep)
  }

  /** `s.split(sep)`: the pieces between occurrences of `sep`, in order. */
  function Split(s: string, sep: char): (parts: seq<string>)
    ensures |parts| >= 1
    ensures |parts| == 1 <==> NoSep(s, sep)
    decreases |s|
  {
    var i := FindSep(s, sep);
    if i == |s| then assert s[..i] == s; [s]
    else [s[..i]] + Split(s[i + 1..], sep)
  }

  /** No piece of a split contains the separator. */
  lemma {:induction false} SplitPiecesHaveNoSep(s: string, sep: char)
    ensures forall k :: 0 <= k < |Split(s, sep)| ==> NoSep(Split(s, sep)[k], sep)
    decreases |s|
  {
    var i := FindSep(s, sep);
    if i < |s| {
      var rest := Split(s[i + 1..], sep);
      SplitPiecesHaveNoSep(s[i + 1..], sep);
      var parts := Split(s, sep);
      assert parts == [s[..i]] + rest;
      forall k | 0 <= k < |parts|
        ensures NoSep(parts[k], sep)
      {
        if k > 0 {
          assert parts[k] == rest[k - 1];
        } else {
          assert parts[0] == s[..i];
        }
      }
    } else {
      assert s[..i] == s;
    }
  }

  /** `sep.join(parts)`. */
  function Join(parts: seq<string>, sep: char): string
    requires |parts| >= 1
  {
    if |parts| == 1 then parts[0]
    else parts[0] + [sep] + Join(parts[1..], sep)
  }

  /** Joining the pieces of a split gives back the original string. */
  lemma {:induction false} JoinSplit(s: string, sep: char)
    ensures Join(Split(s, sep), sep) == s
    decreases |s|
  {
    var i := FindSep(s, sep);
    if i < |s| {
      var t := s[i + 1..];
      var rest := Split(t, sep);
      assert Split(s, sep) == [s[..i]] + rest;
      JoinSplit(t, sep);
      JoinCons(s[..i], rest, sep);
      assert s == s[..i] + [sep] + t;
    } else {
      assert s[..i] == s;
    }
  }

  lemma JoinCons(a: string, rest: seq<string>, sep: char)
    requires |rest| >= 1
    ensures Join([a] + rest, sep) == a + [sep] + Join(rest, sep)
  {
    assert ([a] + rest)[1..] == rest;
  }

  /** Splitting a join of separator-free pieces gives back the pieces. */
  lemma {:induction false} SplitJoin(parts: seq<string>, sep: char)
    requires |parts| >= 1
    requires forall k :: 0 <= k < |parts| ==> NoSep(parts[k], sep)
    ensures Split(Join(parts, sep), sep) == parts
    decreases |parts|
  {
    if |parts| > 1 {
      var rest := parts[1..];
      forall k | 0 <= k < |rest|
        ensures NoSep(rest[k], sep)
      {
        assert rest[k] == parts[k + 1];
      }
      SplitJoin(rest, sep);
      SplitJoinStep(parts, sep);
    } else {
      SplitSingle(parts[0], sep);
    }
  }

  /** The inductive step of `SplitJoin`: the first piece splits off. */
  lemma SplitJoinStep(parts: seq<string>, sep: char)
    requires |parts| > 1 && NoSep(parts[0], sep)
    requires Split(Join(parts[1..], sep), sep) == parts[1..]
    ensures Split(Join(parts, sep), sep) == parts
  {
    var rest := parts[1..];
    var tail := Join(rest, sep);
    assert Join(parts, sep) == parts[0] + [sep] + tail;
    SplitCons(parts[0], sep, tail);
    assert parts == [parts[0]] + rest;
  }

  lemma SplitSingle(a: string, sep: char)
    requires NoSep(a, sep)
    ensures Split(a, sep) == [a]
  {
    assert a[..FindSep(a, sep)] == a[..|a|];
  }

  /** A separator-free piece, a separator, then the rest splits into that
      piece followed by the pieces of the rest. */
  lemma SplitCons(a: string, sep: char, b: string)
    requires NoSep(a, sep)
    ensures Split(a + [sep] + b, sep) == [a] + Split(b, sep)
  {
    var s := a + [sep] + b;
    FindSepAfter(a, sep, b);
    var i := FindSep(s, sep);
    assert s[..i] == a;
    assert s[i + 1..] == b;
  }

  lemma {:induction false} FindSepAfter(a: string, sep: char, b: string)
    requires NoSep(a, sep)
    ensures FindSep(a + [sep] + b, sep) == |a|
    decreases |a|
  {
    if a != [] {
      assert (a + [sep] + b)[1..] == a[1..] + [sep] + b;
      FindSepAfter(a[1..], sep, b);
    }
  }

  /** `last` ends `s` and is either all of `s` or follows a separator. */
  predicate IsSeparatedSuffix(last: string, s: string, sep: char) {
    && |last| <= |s|
    && s[|s| - |last|..] == last
    && (|last| == |s| || s[|s| - |last| - 1] == sep)
  }

  /** The last piece of a split is a suffix of the string, preceded by the
      separator unless it is the whole string. */
  lemma {:induction false} SplitLastIsSuffix(s: string, sep: char)
    ensures var parts := Split(s, sep);
      IsSeparatedSuffix(parts[|parts| - 1], s, sep)
  {
    JoinSplit(s, sep);
    LastOfJoin(Split(s, sep), s, sep);
  }

  lemma LastOfJoin(parts: seq<string>, s: string, sep: char)
    requires |parts| >= 1 && Join(parts, sep) == s
    ensures IsSeparatedSuffix(parts[|parts| - 1], s, sep)
  {
    JoinLast(parts, sep);
  }

  lemma {:induction false} JoinLast(parts: seq<string>, sep: char)
    requires |parts| >= 1
    ensures IsSeparatedSuffix(parts[|parts| - 1], Join(parts, sep), sep)
    decreases |parts|
  {
    var last := parts[|parts| - 1];
    if |parts| == 1 {
      assert Join(parts, sep)[0..] == last;
    } else {
      var rest := parts[1..];
      JoinLast(rest, sep);
      assert rest[|rest| - 1] == last;
      SeparatedSuffixPrepend(last, parts[0] + [sep], Join(rest, sep), sep);
    }
  }

  lemma SeparatedSuffixPrepend(last: string, a: string, t: string, sep: char)
    requires a != [] && a[|a| - 1] == sep
    requires IsSeparatedSuffix(last, t, sep)
    ensures IsSeparatedSuffix(last, a + t, sep)
  {
    var s := a + t;
    assert s[|s| - |last|..] == t[|t| - |last|..];
    if |last| == |t| {
      assert s[|s| - |last| - 1] == a[|a| - 1];
    } else {
      assert s[|s| - |last| - 1] == t[|t| - |last| - 1];
    }
  }
}
