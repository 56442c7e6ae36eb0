/** The functions of Go's `strings` package that the core relies on, over `seq<char>`.
    White space is the fixed ASCII set that `strings.TrimSpace` and `strings.Fields`
    test on ASCII input; other Unicode spaces are outside the model. */
module GoStrings {

  /** '\t', '\n', '\v', '\f', '\r' (the range 9..13) and ' '. */
  predicate IsSpace(c: char) {
    c == ' ' || '\t' <= c <= '\r'
  }

  predicate AllSpace(s: string) {
    forall i :: 0 <= i < |s| ==> IsSpace(s[i])
  }

  predicate NoSpace(s: string) {
    forall i :: 0 <= i < |s| ==> !IsSpace(s[i])
  }

  /** strings.HasPrefix */
  predicate HasPrefix(s: string, prefix: string) {
    |prefix| <= |s| && s[..|prefix|] == prefix
  }

  /** Whether `pattern` occurs anywhere in `s` (strings.Contains). */
  predicate Occurs(s: string, pattern: string)
    requires |pattern| > 0
  {
    HasPrefix(s, pattern) || (s != [] && Occurs(s[1..], pattern))
  }

  // ---------------------------------------------------------------- TrimSpace

  /** Length of the white run at the start of `s`. */
  function LeadingSpaces(s: string): (n: nat)
    ensures n <= |s|
    ensures forall k :: 0 <= k < n ==> IsSpace(s[k])
    ensures n < |s| ==> !IsSpace(s[n])
  {
    if s != [] && IsSpace(s[0]) then 1 + LeadingSpaces(s[1..]) else 0
  }

  /** Length of the white run at the end of `s`. */
  function TrailingSpaces(s: string): (n: nat)
    ensures n <= |s|
    ensures forall k :: |s| - n <= k < |s| ==> IsSpace(s[k])
    ensures n < |s| ==> !IsSpace(s[|s| - n - 1])
  {
    if s != [] && IsSpace(s[|s| - 1]) then 1 + TrailingSpaces(s[..|s| - 1]) else 0
  }

  /** strings.TrimSpace: `s` without its leading and trailing white space. */
  function TrimSpace(s: string): string {
    var t := s[LeadingSpaces(s)..];
    t[..|t| - TrailingSpaces(t)]
  }

  /** The trimmed form is no longer than `s`, starts and ends with a non-space,
      holds only characters of `s`, and is empty exactly when `s` is all white space. */
  lemma TrimSpaceShape(s: string)
    ensures var r := TrimSpace(s);
            && |r| <= |s|
            && (r == [] || (!IsSpace(r[0]) && !IsSpace(r[|r| - 1])))
            && (forall c :: c in r ==> c in s)
            && (r == [] <==> AllSpace(s))
  {
    var i := LeadingSpaces(s);
    var t := s[i..];
    var r := t[..|t| - TrailingSpaces(t)];
    assert r == TrimSpace(s);
    assert r == [] ==> i == |s|;
    assert s[..|s|] == s;
  }

  /** A string with no white space at either end is its own trimmed form, and only such strings are. */
  lemma TrimSpaceFixed(s: string)
    ensures TrimSpace(s) == s <==> (s == [] || (!IsSpace(s[0]) && !IsSpace(s[|s| - 1])))
  {
    TrimSpaceShape(s);
    if s != [] && !IsSpace(s[0]) && !IsSpace(s[|s| - 1]) {
      assert LeadingSpaces(s) == 0;
      assert s[0..] == s;
      assert TrailingSpaces(s) == 0;
      assert s[..|s|] == s;
    }
  }

  /** Trimming twice is trimming once. */
  lemma TrimSpaceIdempotent(s: string)
    ensures TrimSpace(TrimSpace(s)) == TrimSpace(s)
  {
    TrimSpaceShape(s);
    TrimSpaceFixed(TrimSpace(s));
  }

  // ---------------------------------------------------------------- Fields

  /** The longest prefix of `s` free of white space. */
  function Word(s: string): (w: string)
    ensures |w| <= |s| && w == s[..|w|] && NoSpace(w)
    ensures |w| < |s| ==> IsSpace(s[|w|])
    ensures s != [] && !IsSpace(s[0]) ==> |w| > 0
  {
    if s == [] || IsSpace(s[0]) then [] else [s[0]] + Word(s[1..])
  }

  /** strings.Fields: the maximal runs of non-white characters, in order. */
  function Fields(s: string): (fs: seq<string>)
    ensures forall k :: 0 <= k < |fs| ==> fs[k] != [] && NoSpace(fs[k])
    decreases |s|
  {
    if s == [] then []
    else if IsSpace(s[0]) then Fields(s[1..])
    else
      var w := Word(s);
      [w] + Fields(s[|w|..])
  }

  /** A one-character field followed by a blank adds exactly one field in front. */
  lemma {:induction false} FieldsConsWord(c: char, s: string)
    requires !IsSpace(c)
    ensures Fields([c, ' '] + s) == [[c]] + Fields(s)
  {
    var t := [c, ' '] + s;
    assert t[1..][0] == ' ';
    assert Word(t[1..]) == [];
    assert Word(t) == [c];
    assert t[1..] == [' '] + s;
    assert t[1..][1..] == s;
    assert Fields(t[1..]) == Fields(s);
  }

  // ---------------------------------------------------------------- Split and Join

  /** strings.Split for a non-empty separator: the pieces between successive
      left-to-right, non-overlapping occurrences of `sep`. */
  function Split(s: string, sep: string): (parts: seq<string>)
    requires |sep| > 0
    ensures |parts| >= 1
    decreases |s|
  {
    if |s| < |sep| then [s]
    else if s[..|sep|] == sep then [[]] + Split(s[|sep|..], sep)
    else
      var rest := Split(s[1..], sep);
      [[s[0]] + rest[0]] + rest[1..]
  }

  /** strings.Join */
  function Join(parts: seq<string>, sep: string): string {
    if |parts| == 0 then []
    else if |parts| == 1 then parts[0]
    else parts[0] + sep + Join(parts[1..], sep)
  }

  /** No piece of a split on a one-character separator contains that character. */
  lemma {:induction false} SplitPiecesAvoidSeparator(s: string, c: char)
    ensures forall k :: 0 <= k < |Split(s, [c])| ==> c !in Split(s, [c])[k]
    decreases |s|
  {
    if |s| >= 1 {
      if s[..1] == [c] {
        SplitPiecesAvoidSeparator(s[1..], c);
      } else {
        SplitPiecesAvoidSeparator(s[1..], c);
        assert s[0] != c by { assert s[..1][0] == s[0]; }
      }
    }
  }

  /** A string without the separator splits into itself alone. */
  lemma {:induction false} SplitWithoutSeparator(x: string, c: char)
    requires c !in x
    ensures Split(x, [c]) == [x]
    decreases |x|
  {
    if |x| >= 1 {
      assert x[..1] != [c] by { assert x[..1][0] == x[0]; }
      SplitWithoutSeparator(x[1..], c);
      assert [x[0]] + x[1..] == x;
    }
  }

  lemma {:induction false} SplitAtFirstSeparator(x: string, t: string, c: char)
    requires c !in x
    ensures Split(x + [c] + t, [c]) == [x] + Split(t, [c])
    decreases |x|
  {
    var s := x + [c] + t;
    if x == [] {
      assert s[..1] == [c];
      assert s[1..] == t;
    } else {
      assert s[..1] != [c] by { assert s[..1][0] == x[0]; }
      assert s[1..] == x[1..] + [c] + t;
      SplitAtFirstSeparator(x[1..], t, c);
      assert [x[0]] + x[1..] == x;
    }
  }

  /** Joining pieces free of a one-character separator and splitting again gives the pieces back. */
  lemma {:induction false} SplitJoinRoundTrip(xs: seq<string>, c: char)
    requires xs != []
    requires forall k :: 0 <= k < |xs| ==> c !in xs[k]
    ensures Split(Join(xs, [c]), [c]) == xs
  {
    if |xs| == 1 {
      SplitWithoutSeparator(xs[0], c);
    } else {
      SplitJoinRoundTrip(xs[1..], c);
      SplitAtFirstSeparator(xs[0], Join(xs[1..], [c]), c);
      assert [xs[0]] + xs[1..] == xs;
    }
  }

  /** After the last separator: in `a + [c] + b` with `b` free of `c`, the last piece is `b`. */
  lemma {:induction false} SplitLastPiece(a: string, b: string, c: char)
    requires c !in b
    ensures |Split(a + [c] + b, [c])| >= 2
    ensures Split(a + [c] + b, [c])[|Split(a + [c] + b, [c])| - 1] == b
    decreases |a|
  {
    var s := a + [c] + b;
    if a == [] {
      assert s[..1] == [c];
      assert s[1..] == b;
      SplitWithoutSeparator(b, c);
    } else {
      assert s[1..] == a[1..] + [c] + b;
      SplitLastPiece(a[1..], b, c);
    }
  }

  /** The last piece of a split on a one-character separator is the text after the
      last separator: a suffix of `s`, all of `s` when there is no separator, and
      otherwise preceded by the separator. */
  lemma {:induction false} SplitLastIsSuffix(s: string, c: char)
    ensures var parts := Split(s, [c]);
            var last := parts[|parts| - 1];
            && |last| <= |s| && s[|s| - |last|..] == last
            && (|parts| == 1 ==> last == s)
            && (|parts| >= 2 ==> |last| < |s| && s[|s| - |last| - 1] == c)
    decreases |s|
  {
    if |s| >= 1 {
      var tail := s[1..];
      SplitLastIsSuffix(tail, c);
      var rest := Split(tail, [c]);
      if s[..1] == [c] {
        assert Split(s, [c]) == [[]] + rest;
      } else {
        assert Split(s, [c]) == [[s[0]] + rest[0]] + rest[1..];
        if |rest| == 1 {
          assert [s[0]] + tail == s;
        }
      }
    }
  }

  // ---------------------------------------------------------------- ReplaceAll

  /** strings.ReplaceAll for a non-empty pattern: every left-to-right,
      non-overlapping occurrence of `pattern` is replaced by `replacement`. */
  function ReplaceAll(s: string, pattern: string, replacement: string): string
    requires |pattern| > 0
    decreases |s|
  {
    if |s| < |pattern| then s
    else if s[..|pattern|] == pattern then replacement + ReplaceAll(s[|pattern|..], pattern, replacement)
    else [s[0]] + ReplaceAll(s[1..], pattern, replacement)
  }

  /** ReplaceAll is Split on the pattern followed by Join with the replacement. */
  lemma {:induction false} ReplaceAllIsSplitJoin(s: string, pattern: string, replacement: string)
    requires |pattern| > 0
    ensures ReplaceAll(s, pattern, replacement) == Join(Split(s, pattern), replacement)
    decreases |s|
  {
    if |s| < |pattern| {
    } else if s[..|pattern|] == pattern {
      ReplaceAllIsSplitJoin(s[|pattern|..], pattern, replacement);
    } else {
      ReplaceAllIsSplitJoin(s[1..], pattern, replacement);
      var rest := Split(s[1..], pattern);
      if |rest| > 1 {
        assert ([[s[0]] + rest[0]] + rest[1..])[1..] == rest[1..];
      }
    }
  }

  /** Text with no occurrence of the pattern is left unchanged. */
  lemma {:induction false} ReplaceAllAbsent(s: string, pattern: string, replacement: string)
    requires |pattern| > 0
    requires !Occurs(s, pattern)
    ensures ReplaceAll(s, pattern, replacement) == s
    decreases |s|
  {
    if |s| >= |pattern| {
      ReplaceAllAbsent(s[1..], pattern, replacement);
      assert [s[0]] + s[1..] == s;
    }
  }

  /** A prefix that does not contain the pattern's first character is copied as is. */
  lemma {:induction false} ReplaceAllCopiesPrefix(a: string, t: string, pattern: string, replacement: string)
    requires |pattern| > 0
    requires pattern[0] !in a
    ensures ReplaceAll(a + t, pattern, replacement) == a + ReplaceAll(t, pattern, replacement)
    decreases |a|
  {
    var s := a + t;
    if a != [] {
      if |s| < |pattern| {
        assert |t| < |pattern|;
      } else {
        assert s[..|pattern|] != pattern by { assert s[0] == a[0]; }
        assert s[1..] == a[1..] + t;
        ReplaceAllCopiesPrefix(a[1..], t, pattern, replacement);
        assert [a[0]] + a[1..] == a;
      }
    } else {
      assert s == t;
    }
  }

  /** An occurrence at the front is replaced and scanning resumes after it. */
  lemma ReplaceAllAtFront(t: string, pattern: string, replacement: string)
    requires |pattern| > 0
    ensures ReplaceAll(pattern + t, pattern, replacement) == replacement + ReplaceAll(t, pattern, replacement)
  {
    var s := pattern + t;
    assert s[..|pattern|] == pattern;
    assert s[|pattern|..] == t;
  }
}
