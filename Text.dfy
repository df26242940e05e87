/**
 * The Python string operations the scrapers and the CLI use, over ASCII:
 * `isdigit`, `lower`, `startswith`, `in`, `split`, `rstrip`, `strip` and `replace`.
 */
module Text {
  import opened Wrappers

  predicate IsDigit(c: char) {
    '0' <= c <= '9'
  }

  /** Python's `str.isdigit`: at least one character, and every character a digit. */
  predicate IsDigits(s: string) {
    |s| > 0 && forall i :: 0 <= i < |s| ==> IsDigit(s[i])
  }

  /** The characters of `\w`: letters, digits and underscore. */
  predicate IsWordChar(c: char) {
    'a' <= c <= 'z' || 'A' <= c <= 'Z' || IsDigit(c) || c == '_'
  }

  /** The characters `str.strip` removes and `\s` matches. */
  predicate IsSpace(c: char) {
    c == ' ' || '\t' <= c <= '\r' || '\U{1C}' <= c <= '\U{1F}'
  }

  function LowerChar(c: char): char {
    if 'A' <= c <= 'Z' then (c as int + 32) as char else c
  }

  /** Python's `str.lower`. */
  function Lower(s: string): string {
    seq(|s|, i requires 0 <= i < |s| => LowerChar(s[i]))
  }

  lemma LowerAppend(a: string, b: string)
    ensures Lower(a + b) == Lower(a) + Lower(b)
  {
  }

  predicate StartsWith(s: string, prefix: string) {
    |prefix| <= |s| && s[..|prefix|] == prefix
  }

  predicate EndsWith(s: string, suffix: string) {
    |suffix| <= |s| && s[|s| - |suffix|..] == suffix
  }

  /** Python's `s.find(sub, i)`: the first position at or after `i` where `sub` occurs. */
  function FindFrom(s: string, sub: string, i: nat): (r: Option<nat>)
    requires i <= |s|
    ensures r.Some? ==> i <= r.value <= |s| && StartsWith(s[r.value..], sub)
    ensures forall j :: i <= j <= |s| && (r.None? || j < r.value) ==> !StartsWith(s[j..], sub)
    decreases |s| - i
  {
    if StartsWith(s[i..], sub) then Some(i)
    else if i == |s| then None
    else FindFrom(s, sub, i + 1)
  }

  /** Python's `sub in s`. */
  predicate Contains(s: string, sub: string)
    decreases |s|
  {
    StartsWith(s, sub) || (|s| > 0 && Contains(s[1..], sub))
  }

  /** Python's `s.split(sep)` for a one-character separator: never empty. */
  function Split(s: string, sep: char): (parts: seq<string>)
    ensures |parts| >= 1
    decreases |s|
  {
    if |s| == 0 then [""]
    else
      var rest := Split(s[1..], sep);
      if s[0] == sep then [""] + rest
      else [[s[0]] + rest[0]] + rest[1..]
  }

  /** Python's `sep.join(parts)`, the inverse of `Split`. */
  function Join(parts: seq<string>, sep: char): string
  {
    if |parts| == 0 then ""
    else if |parts| == 1 then parts[0]
    else parts[0] + [sep] + Join(parts[1..], sep)
  }

  function Last(parts: seq<string>): string
    requires |parts| > 0
  {
    parts[|parts| - 1]
  }

  /** Splitting and joining again gives back the string. */
  lemma {:induction false} SplitJoinInverse(s: string, sep: char)
    ensures Join(Split(s, sep), sep) == s
    decreases |s|
  {
    if |s| > 0 {
      SplitJoinInverse(s[1..], sep);
      var rest := Split(s[1..], sep);
      if s[0] == sep {
        assert Split(s, sep) == [""] + rest;
        assert Join(Split(s, sep), sep) == "" + [sep] + Join(rest, sep);
      } else {
        var parts := Split(s, sep);
        assert parts == [[s[0]] + rest[0]] + rest[1..];
        if |rest| > 1 {
          assert rest == [rest[0]] + rest[1..];
          assert Join(rest, sep) == rest[0] + [sep] + Join(rest[1..], sep);
          assert parts[1..] == rest[1..];
        }
        assert s == [s[0]] + s[1..];
      }
    }
  }

  /** No piece of `split` holds the separator. */
  lemma {:induction false} SplitPiecesFree(s: string, sep: char)
    ensures forall k :: 0 <= k < |Split(s, sep)| ==> sep !in Split(s, sep)[k]
    decreases |s|
  {
    if |s| > 0 {
      SplitPiecesFree(s[1..], sep);
      var rest := Split(s[1..], sep);
      var parts := Split(s, sep);
      if s[0] != sep {
        assert parts[0] == [s[0]] + rest[0];
        assert sep !in parts[0];
        assert forall k :: 1 <= k < |parts| ==> parts[k] == rest[k];
      } else {
        assert forall k :: 1 <= k < |parts| ==> parts[k] == rest[k - 1];
      }
    }
  }

  /** Splitting and joining again gives back the string, and no piece holds the separator. */
  lemma SplitJoin(s: string, sep: char)
    ensures Join(Split(s, sep), sep) == s
    ensures forall k :: 0 <= k < |Split(s, sep)| ==> sep !in Split(s, sep)[k]
  {
    SplitJoinInverse(s, sep);
    SplitPiecesFree(s, sep);
  }

  /** `split` yields at least two pieces exactly when the separator occurs. */
  lemma {:induction false} SplitCount(s: string, sep: char)
    ensures |Split(s, sep)| >= 2 <==> sep in s
    decreases |s|
  {
    if |s| > 0 {
      SplitCount(s[1..], sep);
      assert s == [s[0]] + s[1..];
    }
  }

  /** The string ends with the last piece of `split`, and a separator stands just before it unless it is the whole string. */
  predicate LastPieceEnds(s: string, sep: char)
  {
    var l := Last(Split(s, sep));
    EndsWith(s, l) && (|l| < |s| ==> s[|s| - |l| - 1] == sep)
  }

  /** A suffix of the tail is a suffix of the whole, and the characters before it agree. */
  lemma EndsWithTail(s: string, l: string)
    requires |s| > 0 && EndsWith(s[1..], l)
    ensures EndsWith(s, l)
    ensures |l| < |s| - 1 ==> s[|s| - |l| - 1] == s[1..][|s| - 1 - |l| - 1]
  {
    var t := s[1..];
    assert forall k :: 0 <= k < |l| ==> l[k] == t[|t| - |l| + k] == s[|s| - |l| + k];
  }

  /** A leading separator leaves the last piece as it was. */
  lemma SplitLastAfterSep(s: string, sep: char)
    requires |s| > 0 && s[0] == sep && LastPieceEnds(s[1..], sep)
    ensures LastPieceEnds(s, sep)
  {
    var l := Last(Split(s[1..], sep));
    assert Last(Split(s, sep)) == l;
    EndsWithTail(s, l);
  }

  /** Without a separator in the tail, the last piece is the whole string. */
  lemma SplitLastWhole(s: string, sep: char)
    requires |s| > 0 && s[0] != sep && |Split(s[1..], sep)| == 1
    ensures LastPieceEnds(s, sep)
  {
    var rest := Split(s[1..], sep);
    assert Last(Split(s, sep)) == [s[0]] + rest[0];
    SplitJoinInverse(s[1..], sep);
    assert Join(rest, sep) == rest[0];
    assert Last(Split(s, sep)) == s;
  }

  /** With a separator in the tail, the last piece is the tail's last piece. */
  lemma SplitLastInTail(s: string, sep: char)
    requires |s| > 0 && s[0] != sep && |Split(s[1..], sep)| > 1 && LastPieceEnds(s[1..], sep)
    ensures LastPieceEnds(s, sep)
  {
    var rest := Split(s[1..], sep);
    var l := Last(rest);
    assert Last(Split(s, sep)) == l;
    SplitCount(s[1..], sep);
    SplitPiecesFree(s[1..], sep);
    assert sep !in l;
    assert l != s[1..];
    assert s[1..][|s| - 1 - |l| - 1] == sep;
  }

  lemma {:induction false} SplitLastEnds(s: string, sep: char)
    ensures LastPieceEnds(s, sep)
    decreases |s|
  {
    if |s| > 0 {
      SplitLastEnds(s[1..], sep);
      if s[0] == sep {
        SplitLastAfterSep(s, sep);
      } else if |Split(s[1..], sep)| == 1 {
        SplitLastWhole(s, sep);
      } else {
        SplitLastInTail(s, sep);
      }
    }
  }

  /**
   * The last piece of `split` is the tail of the string after the last separator:
   * the string ends with it, it holds no separator, and a separator stands just before it
   * whenever it is not the whole string.
   */
  lemma SplitLast(s: string, sep: char)
    ensures EndsWith(s, Last(Split(s, sep)))
    ensures sep !in Last(Split(s, sep))
    ensures |Last(Split(s, sep))| < |s| ==> s[|s| - |Last(Split(s, sep))| - 1] == sep
  {
    SplitLastEnds(s, sep);
    SplitPiecesFree(s, sep);
  }

  /** Python's `s.rstrip(c)` for one character `c`. */
  function RStrip(s: string, c: char): (r: string)
    ensures |r| <= |s| && r == s[..|r|]
    ensures |r| == 0 || r[|r| - 1] != c
    ensures forall i :: |r| <= i < |s| ==> s[i] == c
    decreases |s|
  {
    if |s| > 0 && s[|s| - 1] == c then RStrip(s[..|s| - 1], c) else s
  }

  /** Python's `s.rstrip()`: trailing whitespace removed. */
  function TrimEnd(s: string): (r: string)
    ensures |r| <= |s| && r == s[..|r|]
    ensures |r| == 0 || !IsSpace(r[|r| - 1])
    ensures forall i :: |r| <= i < |s| ==> IsSpace(s[i])
    decreases |s|
  {
    if |s| > 0 && IsSpace(s[|s| - 1]) then TrimEnd(s[..|s| - 1]) else s
  }

  /** Python's `s.lstrip()`: leading whitespace removed. */
  function TrimStart(s: string): (r: string)
    ensures |r| <= |s| && r == s[|s| - |r|..]
    ensures |r| == 0 || !IsSpace(r[0])
    ensures forall i :: 0 <= i < |s| - |r| ==> IsSpace(s[i])
    decreases |s|
  {
    if |s| > 0 && IsSpace(s[0]) then TrimStart(s[1..]) else s
  }

  /** Python's `s.strip()`: white space removed from both ends. */
  function Strip(s: string): string
  {
    TrimStart(TrimEnd(s))
  }

  /** A stripped text neither starts nor ends with white space. */
  lemma StripEdges(s: string)
    ensures var r := Strip(s); |r| == 0 || (!IsSpace(r[0]) && !IsSpace(r[|r| - 1]))
  {
    var e := TrimEnd(s);
    var r := TrimStart(e);
    assert |r| == 0 || r[|r| - 1] == e[|e| - 1];
  }

  /** A string that neither starts nor ends with whitespace is left alone by `strip`. */
  lemma StripUntouched(s: string)
    requires |s| > 0 && !IsSpace(s[0]) && !IsSpace(s[|s| - 1])
    ensures Strip(s) == s
  {
  }

  /** Python's `s.replace(pat, rep)`: every non-overlapping occurrence, left to right. */
  function Replace(s: string, pat: string, rep: string): string
    requires |pat| > 0
    decreases |s|
  {
    if |s| < |pat| then s
    else if s[..|pat|] == pat then rep + Replace(s[|pat|..], pat, rep)
    else [s[0]] + Replace(s[1..], pat, rep)
  }

  /** Replacing one character by another keeps the length and changes exactly that character. */
  lemma {:induction false} ReplaceChar(s: string, a: char, b: char)
    ensures |Replace(s, [a], [b])| == |s|
    ensures forall i :: 0 <= i < |s| ==> Replace(s, [a], [b])[i] == if s[i] == a then b else s[i]
    decreases |s|
  {
    if |s| > 0 {
      ReplaceChar(s[1..], a, b);
    }
  }

  /** Replacing one character by the empty string deletes exactly that character. */
  lemma {:induction false} RemoveChar(s: string, a: char)
    ensures forall c :: c in Replace(s, [a], "") <==> c in s && c != a
    decreases |s|
  {
    if |s| > 0 {
      RemoveChar(s[1..], a);
      assert s == [s[0]] + s[1..];
    }
  }

  /** Stripping twice is stripping once. */
  lemma StripIdempotent(s: string)
    ensures Strip(Strip(s)) == Strip(s)
  {
    StripEdges(s);
    if |Strip(s)| > 0 {
      StripUntouched(Strip(s));
    }
  }
}
