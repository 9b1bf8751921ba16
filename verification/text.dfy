/**
 * The .NET string operations the core relies on, over ASCII:
 * string.IsNullOrWhiteSpace, Trim, ToUpperInvariant, StartsWith (ordinal),
 * IndexOf with StringComparison.OrdinalIgnoreCase, and Split(char).
 */
module Text {

  /** char.IsWhiteSpace restricted to ASCII: space and U+0009 to U+000D. */
  predicate IsWhiteSpace(c: char) {
    c == ' ' || ('\t' <= c <= '\r')
  }

  /** string.IsNullOrWhiteSpace for a non-null string. */
  predicate IsBlank(s: string) {
    forall i | 0 <= i < |s| :: IsWhiteSpace(s[i])
  }

  /** Removes leading white space. */
  function TrimStart(s: string): (r: string)
    ensures |r| <= |s|
    ensures r == [] || !IsWhiteSpace(r[0])
  {
    if s != [] && IsWhiteSpace(s[0]) then TrimStart(s[1..]) else s
  }

  /** What TrimStart removes is a white-space prefix. */
  lemma {:induction false} TrimStartFactor(s: string)
    ensures TrimStart(s) == s[|s| - |TrimStart(s)|..]
    ensures IsBlank(s[..|s| - |TrimStart(s)|])
    decreases |s|
  {
    if s != [] && IsWhiteSpace(s[0]) {
      var t, r := s[1..], TrimStart(s);
      assert r == TrimStart(t);
      TrimStartFactor(t);
      var k' := |t| - |r|;
      var k := k' + 1;
      assert t[k'..] == s[k..];
      var blank, tail := s[..k], t[..k'];
      assert |blank| == |tail| + 1;
      forall i | 0 <= i < |blank|
        ensures IsWhiteSpace(blank[i])
      {
        if i > 0 {
          assert blank[i] == tail[i - 1];
        }
      }
    } else {
      assert s[..0] == [];
    }
  }

  /** Removes trailing white space. */
  function TrimEnd(s: string): (r: string)
    ensures |r| <= |s|
    ensures r == [] || !IsWhiteSpace(r[|r| - 1])
  {
    if s != [] && IsWhiteSpace(s[|s| - 1]) then TrimEnd(s[..|s| - 1]) else s
  }

  /** What TrimEnd removes is a white-space suffix. */
  lemma {:induction false} TrimEndFactor(s: string)
    ensures TrimEnd(s) == s[..|TrimEnd(s)|]
    ensures IsBlank(s[|TrimEnd(s)|..])
    decreases |s|
  {
    if s != [] && IsWhiteSpace(s[|s| - 1]) {
      var init := s[..|s| - 1];
      TrimEndFactor(init);
      var k := |TrimEnd(s)|;
      assert init[..k] == s[..k];
      assert forall i | 0 <= i < |s| - 1 - k :: s[k..][i] == init[k..][i];
    }
  }

  /** string.Trim(). */
  function Trim(s: string): (r: string)
    ensures |r| <= |s|
    ensures r == [] || (!IsWhiteSpace(r[0]) && !IsWhiteSpace(r[|r| - 1]))
  {
    var t := TrimStart(s);
    TrimEndFactor(t);
    TrimEnd(t)
  }

  /** Trim keeps the longest factor of s that neither starts nor ends with white space. */
  lemma TrimFactor(s: string)
    ensures Trim(s) == [] <==> IsBlank(s)
    ensures exists i :: 0 <= i <= |s| - |Trim(s)| && Trim(s) == s[i..i + |Trim(s)|] && IsBlank(s[..i]) && IsBlank(s[i + |Trim(s)|..])
  {
    var i := TrimWindow(s);
    var r := Trim(s);
    if r == [] {
      forall j | 0 <= j < |s|
        ensures IsWhiteSpace(s[j])
      {
        if j < i {
          assert s[j] == s[..i][j];
        } else {
          assert s[j] == s[i..][j - i];
        }
      }
    } else {
      assert !IsWhiteSpace(s[i]) by { assert r[0] == s[i]; }
    }
  }

  /** Trim keeps a window of s with white space on both sides; i is where the window starts. */
  lemma TrimWindow(s: string) returns (i: nat)
    ensures i + |Trim(s)| <= |s|
    ensures Trim(s) == s[i..i + |Trim(s)|] && IsBlank(s[..i]) && IsBlank(s[i + |Trim(s)|..])
  {
    var t := TrimStart(s);
    TrimStartFactor(s);
    TrimEndFactor(t);
    i := |s| - |t|;
    var r := TrimEnd(t);
    assert Trim(s) == r;
    assert s[i..] == t;
    assert s[i..i + |r|] == t[..|r|];
    assert s[i + |r|..] == t[|r|..];
  }

  /** char.ToUpperInvariant on ASCII letters; every other character is unchanged. */
  function UpperChar(c: char): char {
    if 'a' <= c <= 'z' then (c as int - 32) as char else c
  }

  /** string.ToUpperInvariant(), character by character. */
  function ToUpper(s: string): (r: string)
    ensures |r| == |s|
  {
    if s == [] then [] else [UpperChar(s[0])] + ToUpper(s[1..])
  }

  /** No lower-case ASCII letter occurs in s. */
  predicate IsUpper(s: string) {
    forall i | 0 <= i < |s| :: !('a' <= s[i] <= 'z')
  }

  /** Upper-casing works character by character. */
  lemma {:induction false} UpperPointwise(s: string)
    ensures forall i | 0 <= i < |s| :: ToUpper(s)[i] == UpperChar(s[i])
    decreases |s|
  {
    if s != [] {
      UpperPointwise(s[1..]);
      assert forall i | 1 <= i < |s| :: ToUpper(s)[i] == ToUpper(s[1..])[i - 1];
    }
  }

  lemma UpperPreservesWhiteSpace(s: string)
    ensures |ToUpper(s)| == |s|
    ensures forall i | 0 <= i < |s| :: IsWhiteSpace(ToUpper(s)[i]) <==> IsWhiteSpace(s[i])
    ensures IsUpper(ToUpper(s))
  {
    UpperPointwise(s);
  }

  /** The upper-cased form of an upper-case string is the string itself. */
  lemma UpperOfUpper(s: string)
    requires IsUpper(s)
    ensures ToUpper(s) == s
  {
    UpperPointwise(s);
  }

  /** Ordinal StartsWith. */
  predicate StartsWith(s: string, prefix: string) {
    |prefix| <= |s| && s[..|prefix|] == prefix
  }

  /** needle occurs at position i of hay when both are compared with OrdinalIgnoreCase. */
  predicate MatchesAtIgnoreCase(hay: string, needle: string, i: int) {
    0 <= i && i + |needle| <= |hay| && ToUpper(hay[i..i + |needle|]) == ToUpper(needle)
  }

  /** Strings that agree character by character up to case agree once upper-cased. */
  lemma SameUpper(s: string, t: string)
    requires |s| == |t| && forall i | 0 <= i < |s| :: UpperChar(s[i]) == UpperChar(t[i])
    ensures ToUpper(s) == ToUpper(t)
  {
    UpperPointwise(s);
    UpperPointwise(t);
  }

  /** A match ignoring case starts with the needle's first character, up to case. */
  lemma MatchFirstChar(hay: string, needle: string, i: int)
    requires needle != [] && MatchesAtIgnoreCase(hay, needle, i)
    ensures UpperChar(hay[i]) == UpperChar(needle[0])
  {
    var window := hay[i..i + |needle|];
    assert ToUpper(window)[0] == UpperChar(window[0]);
    assert ToUpper(needle)[0] == UpperChar(needle[0]);
  }

  /** IndexOf(needle, StringComparison.OrdinalIgnoreCase), searching from position start. */
  function IndexOfIgnoreCaseFrom(hay: string, needle: string, start: nat): (r: int)
    requires start <= |hay|
    ensures r == -1 || (start <= r && MatchesAtIgnoreCase(hay, needle, r))
    ensures r == -1 ==> forall j | start <= j :: !MatchesAtIgnoreCase(hay, needle, j)
    ensures r != -1 ==> forall j | start <= j < r :: !MatchesAtIgnoreCase(hay, needle, j)
    decreases |hay| - start
  {
    if start + |needle| > |hay| then -1
    else if ToUpper(hay[start..start + |needle|]) == ToUpper(needle) then start
    else if start == |hay| then -1
    else IndexOfIgnoreCaseFrom(hay, needle, start + 1)
  }

  /** hay.IndexOf(needle, StringComparison.OrdinalIgnoreCase): the first match, or -1. */
  function IndexOfIgnoreCase(hay: string, needle: string): (r: int)
    ensures r >= 0 <==> exists j :: MatchesAtIgnoreCase(hay, needle, j)
    ensures r >= 0 ==> MatchesAtIgnoreCase(hay, needle, r) && forall j | 0 <= j < r :: !MatchesAtIgnoreCase(hay, needle, j)
  {
    IndexOfIgnoreCaseFrom(hay, needle, 0)
  }

  /** Number of occurrences of c in s. */
  function Count(s: string, c: char): nat {
    if s == [] then 0 else (if s[0] == c then 1 else 0) + Count(s[1..], c)
  }

  /** string.Split(separator) with no options: every part, empty ones included. */
  function Split(s: string, separator: char): (parts: seq<string>)
    ensures |parts| >= 1
    decreases |s|
  {
    if s == [] then [[]]
    else
      var rest := Split(s[1..], separator);
      if s[0] == separator then [[]] + rest else [[s[0]] + rest[0]] + rest[1..]
  }

  /** Split yields one more part than there are separators. */
  lemma {:induction false} SplitCount(s: string, separator: char)
    ensures |Split(s, separator)| == Count(s, separator) + 1
    decreases |s|
  {
    if s != [] {
      SplitCount(s[1..], separator);
    }
  }

  /** A string with no separator splits into itself alone. */
  lemma {:induction false} SplitWithoutSeparator(s: string, separator: char)
    requires separator !in s
    ensures Split(s, separator) == [s]
    decreases |s|
  {
    if s != [] {
      assert separator !in s[1..] by {
        forall k | 0 <= k < |s[1..]| ensures s[1..][k] != separator {
          assert s[1..][k] == s[k + 1];
        }
      }
      SplitWithoutSeparator(s[1..], separator);
      assert [s[0]] + s[1..] == s;
    }
  }

  /** Joining two separator-free strings with the separator and splitting gives them back. */
  lemma {:induction false} SplitJoin(a: string, b: string, separator: char)
    requires separator !in a && separator !in b
    ensures Split(a + [separator] + b, separator) == [a, b]
    decreases |a|
  {
    if a == [] {
      assert [separator] + b == [separator] + b;
      assert ([] + [separator] + b)[1..] == b;
      SplitWithoutSeparator(b, separator);
    } else {
      var s := a + [separator] + b;
      assert s[0] == a[0];
      assert s[1..] == a[1..] + [separator] + b;
      assert separator !in a[1..] by {
        forall k | 0 <= k < |a[1..]| ensures a[1..][k] != separator {
          assert a[1..][k] == a[k + 1];
        }
      }
      SplitJoin(a[1..], b, separator);
      assert [a[0]] + a[1..] == a;
    }
  }
}
