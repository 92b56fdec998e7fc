/** Small optional-value datatype shared by the modules below. */
module Options {
  datatype Option<+T> = None | Some(value: T)
}

/**
 * The few string operations the scripts rely on: lower-casing, suffix and
 * substring tests, newline removal and whitespace stripping.  Strings are
 * sequences of characters; lower-casing covers the ASCII letters only.
 */
module Text {

  function LowerChar(c: char): char {
    if 'A' <= c <= 'Z' then (c as int + 32) as char else c
  }

  /** `s.lower()`, restricted to ASCII letters. */
  function Lower(s: string): (r: string)
    ensures |r| == |s|
    ensures forall i :: 0 <= i < |s| ==> r[i] == LowerChar(s[i])
  {
    seq(|s|, i requires 0 <= i < |s| => LowerChar(s[i]))
  }

  /** Lower-casing leaves a string without upper-case ASCII letters unchanged. */
  lemma LowerFixed(s: string)
    requires forall i :: 0 <= i < |s| ==> !('A' <= s[i] <= 'Z')
    ensures Lower(s) == s
  {
  }

  predicate StartsWith(s: string, prefix: string) {
    |prefix| <= |s| && s[..|prefix|] == prefix
  }

  /** `s.endswith(suffix)`. */
  predicate EndsWith(s: string, suffix: string) {
    |suffix| <= |s| && s[|s| - |suffix|..] == suffix
  }

  /** `sub in s`: some position of `s` starts a copy of `sub`. */
  predicate Contains(s: string, sub: string)
    decreases |s|
  {
    StartsWith(s, sub) || (s != [] && Contains(s[1..], sub))
  }

  /** A copy of `sub` starts at position `i` of `s`. */
  predicate OccursAt(s: string, sub: string, i: int) {
    0 <= i <= |s| - |sub| && s[i..i + |sub|] == sub
  }

  /** `Contains` agrees with the positional reading of `sub in s`, in both directions. */
  lemma {:induction false} ContainsAt(s: string, sub: string)
    ensures Contains(s, sub) <==> exists i :: OccursAt(s, sub, i)
    decreases |s|
  {
    if StartsWith(s, sub) {
      assert OccursAt(s, sub, 0);
    } else if s == [] {
    } else {
      ContainsAt(s[1..], sub);
      if exists i :: OccursAt(s, sub, i) {
        var i :| OccursAt(s, sub, i);
        assert i != 0;
        assert s[1..][i - 1..i - 1 + |sub|] == s[i..i + |sub|];
        assert OccursAt(s[1..], sub, i - 1);
      }
      if Contains(s[1..], sub) {
        var j :| OccursAt(s[1..], sub, j);
        assert s[1..][j..j + |sub|] == s[j + 1..j + 1 + |sub|];
        assert OccursAt(s, sub, j + 1);
      }
    }
  }

  /** A string contains whatever sits between a prefix and a suffix of it. */
  lemma ContainsPart(a: string, m: string, b: string)
    ensures Contains(a + m + b, m)
  {
    assert (a + m + b)[|a|..|a| + |m|] == m;
    assert OccursAt(a + m + b, m, |a|);
    ContainsAt(a + m + b, m);
  }

  /** Containment is transitive. */
  lemma ContainsTrans(s: string, t: string, u: string)
    requires Contains(s, t) && Contains(t, u)
    ensures Contains(s, u)
  {
    ContainsAt(s, t);
    ContainsAt(t, u);
    var i :| OccursAt(s, t, i);
    var j :| OccursAt(t, u, j);
    assert t == s[i..i + |t|];
    forall k | 0 <= k < |u|
      ensures s[i + j + k] == u[k]
    {
      assert u[k] == t[j + k] == s[i..i + |t|][j + k];
    }
    assert s[i + j..i + j + |u|] == u;
    assert OccursAt(s, u, i + j);
    ContainsAt(s, u);
  }

  /** Every character of a contained string is a character of the container. */
  lemma ContainsChars(s: string, sub: string, c: char)
    requires Contains(s, sub) && c in sub
    ensures c in s
  {
    ContainsAt(s, sub);
    var i :| OccursAt(s, sub, i);
    var k :| 0 <= k < |sub| && sub[k] == c;
    assert s[i..i + |sub|][k] == s[i + k];
  }

  /** `s.replace("\n", "")`. */
  function DropNewlines(s: string): (r: string)
    ensures '\n' !in r
    ensures '\n' !in s ==> r == s
  {
    if s == [] then []
    else (if s[0] == '\n' then [] else [s[0]]) + DropNewlines(s[1..])
  }

  /** Newline removal works character by character, so it keeps the order and number of the other characters. */
  lemma {:induction false} DropNewlinesAppend(a: string, b: string)
    ensures DropNewlines(a + b) == DropNewlines(a) + DropNewlines(b)
  {
    if a != [] {
      var head := if a[0] == '\n' then [] else [a[0]];
      assert DropNewlines(a + b) == head + DropNewlines(a[1..] + b) by {
        assert (a + b)[0] == a[0] && (a + b)[1..] == a[1..] + b;
      }
      assert DropNewlines(a) == head + DropNewlines(a[1..]);
      DropNewlinesAppend(a[1..], b);
    } else {
      assert a + b == b;
    }
  }

  /** Any character other than a newline survives newline removal. */
  lemma {:induction false} DropNewlinesKeeps(s: string, i: nat)
    requires i < |s| && s[i] != '\n'
    ensures s[i] in DropNewlines(s)
  {
    if i > 0 {
      DropNewlinesKeeps(s[1..], i - 1);
    }
  }

  /** The characters `str.strip()` removes (the ASCII ones and the two Latin-1 ones). */
  predicate IsSpace(c: char) {
    c == ' ' || c == '\t' || c == '\n' || c == '\r' || c == '\U{B}' || c == '\U{C}'
    || ('\U{1C}' <= c <= '\U{1F}') || c == '\U{85}' || c == '\U{A0}'
  }

  /** Every character of `s` is white space. */
  predicate AllSpace(s: string) {
    forall k :: 0 <= k < |s| ==> IsSpace(s[k])
  }

  function StripLeading(s: string): (r: string)
    ensures |r| <= |s| && r == s[|s| - |r|..]
    ensures AllSpace(s[..|s| - |r|])
    ensures r != [] ==> !IsSpace(r[0])
  {
    if s != [] && IsSpace(s[0]) then StripLeading(s[1..]) else s
  }

  function StripTrailing(s: string): (r: string)
    ensures |r| <= |s| && r == s[..|r|]
    ensures AllSpace(s[|r|..])
    ensures r != [] ==> !IsSpace(r[|r| - 1])
  {
    if s != [] && IsSpace(s[|s| - 1]) then StripTrailing(s[..|s| - 1]) else s
  }

  /**
   * `s.strip()`: the piece of `s` left once the white space at both ends is
   * cut off, with no white space at either end (`StripCuts` adds that what
   * is cut off is all white space).
   */
  function Strip(s: string): (r: string)
    ensures exists i, j :: 0 <= i <= j <= |s| && r == s[i..j]
    ensures r != [] ==> !IsSpace(r[0]) && !IsSpace(r[|r| - 1])
  {
    var t := StripLeading(s);
    var r := StripTrailing(t);
    assert r == s[|s| - |t|..][..|r|] == s[|s| - |t|..|s| - |t| + |r|];
    r
  }

  /** What `Strip` cuts off at either end is white space only, so its result is determined. */
  lemma StripCuts(s: string)
    ensures exists i, j :: 0 <= i <= j <= |s| && Strip(s) == s[i..j] && AllSpace(s[..i]) && AllSpace(s[j..])
  {
    var t := StripLeading(s);
    StripPieces(s, t, StripTrailing(t));
  }

  /** The two cuts of `Strip` as positions in `s`. */
  lemma StripPieces(s: string, t: string, r: string)
    requires |t| <= |s| && t == s[|s| - |t|..] && AllSpace(s[..|s| - |t|])
    requires |r| <= |t| && r == t[..|r|] && AllSpace(t[|r|..])
    ensures exists i, j :: 0 <= i <= j <= |s| && r == s[i..j] && AllSpace(s[..i]) && AllSpace(s[j..])
  {
    var i, j := |s| - |t|, |s| - |t| + |r|;
    assert r == s[i..j];
    assert s[j..] == t[|r|..];
  }

  /** Stripping a line that had its newlines removed leaves no newline behind. */
  lemma StripKeepsNoNewline(s: string)
    requires '\n' !in s
    ensures '\n' !in Strip(s)
  {
    var i, j :| 0 <= i <= j <= |s| && Strip(s) == s[i..j];
    assert forall k | 0 <= k < j - i :: s[i..j][k] == s[i + k] && s[i + k] in s;
  }

  /** A line of white space only strips to the empty string. */
  lemma StripBlank(s: string)
    requires AllSpace(s)
    ensures Strip(s) == ""
  {
    StripCuts(s);
    var i, j :| 0 <= i <= j <= |s| && Strip(s) == s[i..j] && AllSpace(s[..i]) && AllSpace(s[j..]);
  }
}
