/** The two Python string operations the command applies to text:
    `str.strip()` with no argument, and `str.split(sep)` with a one-character separator. */
module Text {

  /** Python's `str.isspace()` for a single character: the ASCII whitespace and
      separator controls, NEL, NO-BREAK SPACE and the Unicode space separators
      (the ideographic space U+3000 among them). */
  predicate IsSpace(c: char)
  {
    || c == ' '
    || ('\t' <= c <= '\r')
    || ('\U{1C}' <= c <= '\U{1F}')
    || c == '\U{85}'
    || c == '\U{A0}'
    || c == '\U{1680}'
    || ('\U{2000}' <= c <= '\U{200A}')
    || c == '\U{2028}'
    || c == '\U{2029}'
    || c == '\U{202F}'
    || c == '\U{205F}'
    || c == '\U{3000}'
  }

  /** `s` has no whitespace at either end. */
  predicate Trimmed(s: string)
  {
    s == [] || (!IsSpace(s[0]) && !IsSpace(s[|s| - 1]))
  }

  /** Every character of `s` is whitespace. */
  predicate AllSpace(s: string)
  {
    forall i :: 0 <= i < |s| ==> IsSpace(s[i])
  }

  /** Python's `s.strip()`: drops whitespace from both ends. */
  function Strip(s: string): (r: string)
    ensures Trimmed(r)
    ensures |r| <= |s|
    decreases |s|
  {
    if s != [] && IsSpace(s[0]) then Strip(s[1..])
    else if s != [] && IsSpace(s[|s| - 1]) then Strip(s[..|s| - 1])
    else s
  }

  /** Strip is characterised by what it keeps: whatever whitespace surrounds a
      trimmed text, stripping gives back exactly that text. */
  lemma {:induction false} StripOfPadded(a: string, m: string, b: string)
    requires AllSpace(a) && AllSpace(b) && Trimmed(m)
    ensures Strip(a + m + b) == m
    decreases |a| + |b|
  {
    var s := a + m + b;
    if a != [] {
      assert s[0] == a[0];
      assert s[1..] == a[1..] + m + b;
      StripOfPadded(a[1..], m, b);
    } else if m == [] && b != [] {
      assert s == b;
      assert s[1..] == [] + m + b[1..];
      StripOfPadded([], m, b[1..]);
    } else if b != [] {
      assert s[0] == m[0];
      assert s[|s| - 1] == b[|b| - 1];
      assert s[..|s| - 1] == [] + m + b[..|b| - 1];
      StripOfPadded([], m, b[..|b| - 1]);
    } else {
      assert s == m;
    }
  }

  /** Text with no whitespace at either end is left as it is. */
  lemma StripTrimmed(s: string)
    requires Trimmed(s)
    ensures Strip(s) == s
  {
    StripOfPadded([], s, []);
    assert [] + s + [] == s;
  }

  /** Stripping twice is stripping once. */
  lemma StripIdempotent(s: string)
    ensures Strip(Strip(s)) == Strip(s)
  {
    var m := Strip(s);
    StripOfPadded([], m, []);
    assert [] + m + [] == m;
  }

  /** Python's `s.split(sep)`: the pieces between the separators, always at least one. */
  function Split(s: string, sep: char): (parts: seq<string>)
    ensures |parts| >= 1
    ensures forall i :: 0 <= i < |parts| ==> sep !in parts[i]
  {
    if s == [] then [[]]
    else
      var rest := Split(s[1..], sep);
      if s[0] == sep then [[]] + rest
      else [[s[0]] + rest[0]] + rest[1..]
  }

  /** Python's `sep.join(parts)`. */
  function Join(parts: seq<string>, sep: char): string
    requires |parts| >= 1
  {
    if |parts| == 1 then parts[0] else parts[0] + [sep] + Join(parts[1..], sep)
  }

  /** Splitting and joining again with the same separator gives back the text. */
  lemma {:induction false} JoinSplit(s: string, sep: char)
    ensures Join(Split(s, sep), sep) == s
  {
    if s != [] {
      var rest := Split(s[1..], sep);
      JoinSplit(s[1..], sep);
      if s[0] == sep {
        assert Split(s, sep)[1..] == rest;
      } else {
        var parts := Split(s, sep);
        if |rest| == 1 {
          assert parts == [[s[0]] + rest[0]];
        } else {
          assert parts[1..] == rest[1..];
          assert Join(rest, sep) == rest[0] + [sep] + Join(rest[1..], sep);
        }
      }
    }
  }

  /** `k.split(".")[-1]`. */
  function LastSegment(s: string): string
  {
    var parts := Split(s, '.');
    parts[|parts| - 1]
  }

  /** A text splits into a single piece, itself, exactly when it has no separator. */
  lemma {:induction false} SplitSingle(s: string, sep: char)
    ensures |Split(s, sep)| == 1 <==> sep !in s
    ensures sep !in s ==> Split(s, sep) == [s]
  {
    if s != [] {
      SplitSingle(s[1..], sep);
      assert s == [s[0]] + s[1..];
    }
  }

  /** The last piece of a split is the text after the last separator (all of it when
      there is none). */
  lemma {:induction false} LastPieceAfterLastSep(s: string, sep: char)
    ensures var parts := Split(s, sep); var r := parts[|parts| - 1];
      && |r| <= |s| && r == s[|s| - |r|..]
      && sep !in r
      && (|r| == |s| || s[|s| - |r| - 1] == sep)
  {
    if s != [] {
      var t := s[1..];
      var rest := Split(t, sep);
      var parts := Split(s, sep);
      var last := rest[|rest| - 1];
      LastPieceAfterLastSep(t, sep);
      if s[0] != sep && |rest| == 1 {
        SplitSingle(t, sep);
        assert parts == [[s[0]] + t];
        assert [s[0]] + t == s;
      } else {
        assert parts[|parts| - 1] == last;
        assert t[|t| - |last|..] == s[|s| - |last|..];
        if s[0] != sep {
          SplitSingle(t, sep);
          assert last != t;
          assert |last| < |t|;
          assert s[|s| - |last| - 1] == t[|t| - |last| - 1];
        }
      }
    }
  }

  /** The output name of a module: the substring after the last '.' of its dotted path. */
  lemma LastSegmentAfterLastDot(s: string)
    ensures var r := LastSegment(s);
      && |r| <= |s| && r == s[|s| - |r|..]
      && '.' !in r
      && (r == s || s[|s| - |r| - 1] == '.')
  {
    LastPieceAfterLastSep(s, '.');
  }
}
