/**
 * The .NET string operations the core relies on, over `seq<char>`.
 * Case-insensitive comparison folds ASCII letters only; culture-specific
 * casing is not modelled.
 */
module Text {

  /** ASCII lower-casing of one character. */
  function LowerChar(c: char): (r: char)
    ensures 'A' <= c <= 'Z' ==> r as int == c as int + 32
    ensures !('A' <= c <= 'Z') ==> r == c
  {
    if 'A' <= c <= 'Z' then (c as int + 32) as char else c
  }

  /** `String.ToLower` restricted to ASCII letters. */
  function ToLower(s: string): (r: string)
    ensures |r| == |s|
    ensures forall i :: 0 <= i < |s| ==> r[i] == LowerChar(s[i])
  {
    seq(|s|, i requires 0 <= i < |s| => LowerChar(s[i]))
  }

  /** `String.Equals(a, b, ...IgnoreCase)`. */
  predicate EqualsIgnoreCase(a: string, b: string)
  {
    ToLower(a) == ToLower(b)
  }

  /** `String.IndexOf(char)`: the first position of `c`, or -1. */
  function IndexOf(s: string, c: char): (r: int)
    ensures -1 <= r < |s|
    ensures r == -1 <==> c !in s
    ensures r >= 0 ==> s[r] == c && c !in s[..r]
  {
    if s == [] then -1
    else if s[0] == c then 0
    else
      var k := IndexOf(s[1..], c);
      assert s[1..][..(if k < 0 then 0 else k)] == s[1..1 + (if k < 0 then 0 else k)];
      if k == -1 then -1 else k + 1
  }

  /** True for the characters `String.Trim()` removes that the files contain: space and tab. */
  predicate IsBlank(c: char)
  {
    c == ' ' || c == '\t'
  }

  /** `String.TrimStart(chars)` for the character set given by `drop`. */
  function TrimStartWhere(s: string, drop: char -> bool): (r: string)
    ensures |r| <= |s|
    ensures r != [] ==> !drop(r[0])
  {
    if s != [] && drop(s[0]) then TrimStartWhere(s[1..], drop) else s
  }

  /** `String.TrimEnd(chars)` for the character set given by `drop`. */
  function TrimEndWhere(s: string, drop: char -> bool): (r: string)
    ensures |r| <= |s|
    ensures r != [] ==> !drop(r[|r| - 1])
  {
    if s != [] && drop(s[|s| - 1]) then TrimEndWhere(s[..|s| - 1], drop) else s
  }

  /** `String.Trim(chars)`: both ends. */
  function TrimWhere(s: string, drop: char -> bool): string
  {
    TrimEndWhere(TrimStartWhere(s, drop), drop)
  }

  /** `String.Trim()` over spaces and tabs. */
  function Trim(s: string): string
  {
    TrimWhere(s, IsBlank)
  }

  /** Trimming the front keeps a suffix. */
  lemma {:induction false} TrimStartSuffix(s: string, drop: char -> bool)
    ensures var r := TrimStartWhere(s, drop); r == s[|s| - |r|..]
    decreases |s|
  {
    if s != [] && drop(s[0]) {
      TrimStartSuffix(s[1..], drop);
    }
  }

  /** Trimming the end keeps a prefix. */
  lemma {:induction false} TrimEndPrefix(s: string, drop: char -> bool)
    ensures var r := TrimEndWhere(s, drop); r == s[..|r|]
    decreases |s|
  {
    if s != [] && drop(s[|s| - 1]) {
      TrimEndPrefix(s[..|s| - 1], drop);
    }
  }

  /** A character the text lacks is missing from its trim too. */
  lemma TrimLacks(s: string, c: char)
    requires c !in s
    ensures c !in Trim(s)
  {
    var t := TrimStartWhere(s, IsBlank);
    TrimStartSuffix(s, IsBlank);
    TrimEndPrefix(t, IsBlank);
    assert c !in t;
  }

  /** The first occurrence of a character that the front part lacks is right after it. */
  lemma IndexOfFirst(a: string, c: char, b: string)
    requires c !in a
    ensures IndexOf(a + [c] + b, c) == |a|
  {
    var s := a + [c] + b;
    assert s[..|a|] == a;
    assert s[|a|] == c;
    assert forall k :: |a| < k <= |s| ==> s[..k][|a|] == c;
  }

  /** Text that starts and ends with a non-blank is its own trim. */
  lemma TrimKeeps(s: string)
    requires s != [] && !IsBlank(s[0]) && !IsBlank(s[|s| - 1])
    ensures Trim(s) == s
  {
    assert TrimStartWhere(s, IsBlank) == s;
  }

  /** Concatenation regroups. */
  lemma AppendRegroup(a: string, b: string, c: string)
    ensures a + b + c == a + (b + c)
  {
  }

  /** Text ending in a non-blank keeps its end. */
  lemma TrimEndKeeps(s: string)
    requires s != [] && !IsBlank(s[|s| - 1])
    ensures TrimEndWhere(s, IsBlank) == s
  {
  }

  /** Text followed by a part that starts and ends with non-blanks is trimmed at the front only. */
  lemma TrimBeforeTail(s: string, tail: string)
    requires tail != [] && !IsBlank(tail[0]) && !IsBlank(tail[|tail| - 1])
    ensures Trim(s + tail) == TrimStartWhere(s, IsBlank) + tail
  {
    TrimStartAppend(s, tail);
    var t := TrimStartWhere(s, IsBlank) + tail;
    assert t[|t| - 1] == tail[|tail| - 1];
    TrimEndKeeps(t);
  }

  /** Text made of blanks trims to nothing. */
  lemma TrimBlanks(s: string)
    requires forall i :: 0 <= i < |s| ==> IsBlank(s[i])
    ensures Trim(s) == ""
  {
    var t := TrimStartWhere(s, IsBlank);
    TrimStartSuffix(s, IsBlank);
    assert t == [];
  }

  /** Text without capitals is its own lower case. */
  lemma ToLowerKeeps(s: string)
    requires forall i :: 0 <= i < |s| ==> !('A' <= s[i] <= 'Z')
    ensures ToLower(s) == s
  {
  }

  /** Blanks are trimmed from the front of the first part only, up to a part that starts with a non-blank. */
  lemma {:induction false} TrimStartAppend(a: string, b: string)
    requires b != [] && !IsBlank(b[0])
    ensures TrimStartWhere(a + b, IsBlank) == TrimStartWhere(a, IsBlank) + b
    decreases |a|
  {
    if a == [] {
      assert a + b == b;
    } else {
      assert (a + b)[1..] == a[1..] + b;
      TrimStartAppend(a[1..], b);
    }
  }

  /** `String.Split(c)`: every piece between separators, empty pieces kept. */
  function Split(s: string, c: char): (r: seq<string>)
    ensures |r| >= 1
    ensures forall i :: 0 <= i < |r| ==> c !in r[i]
    decreases |s|
  {
    var k := IndexOf(s, c);
    if k == -1 then [s] else [s[..k]] + Split(s[k + 1..], c)
  }

  /** `String.Replace(pattern, replacement)`: left-to-right, non-overlapping. */
  function Replace(s: string, pattern: string, replacement: string): (r: string)
    requires pattern != []
    decreases |s|
  {
    if |s| < |pattern| then s
    else if s[..|pattern|] == pattern then replacement + Replace(s[|pattern|..], pattern, replacement)
    else [s[0]] + Replace(s[1..], pattern, replacement)
  }

  /** Text without the pattern's first character holds no occurrence of it. */
  lemma {:induction false} ReplaceAbsent(s: string, pattern: string, replacement: string)
    requires pattern != [] && pattern[0] !in s
    ensures Replace(s, pattern, replacement) == s
    decreases |s|
  {
    if |s| >= |pattern| {
      assert s[..|pattern|][0] == s[0];
      ReplaceAbsent(s[1..], pattern, replacement);
      assert [s[0]] + s[1..] == s;
    }
  }

  /** The pattern itself is replaced as a whole. */
  lemma ReplaceWhole(pattern: string, replacement: string)
    requires pattern != []
    ensures Replace(pattern, pattern, replacement) == replacement
  {
    assert pattern[..|pattern|] == pattern;
    assert Replace(pattern[|pattern|..], pattern, replacement) == [];
  }

  /**
   * A character outside the pattern splits the replacement: no occurrence of
   * the pattern can straddle it.
   */
  lemma {:induction false} ReplaceAround(a: string, c: char, b: string, pattern: string, replacement: string)
    requires pattern != [] && c !in pattern
    ensures Replace(a + [c] + b, pattern, replacement) == Replace(a, pattern, replacement) + [c] + Replace(b, pattern, replacement)
    decreases |a|, 1
  {
    var s := a + [c] + b;
    var n := |pattern|;
    if |a| < n {
      ReplaceAroundShort(a, c, b, pattern, replacement);
    } else if a[..n] == pattern {
      assert s[..n] == a[..n];
      assert s[n..] == a[n..] + [c] + b;
      ReplaceAround(a[n..], c, b, pattern, replacement);
    } else {
      assert s[..n] == a[..n];
      assert s[1..] == a[1..] + [c] + b;
      ReplaceAround(a[1..], c, b, pattern, replacement);
    }
  }

  /** `ReplaceAround` when the text before the character is shorter than the pattern. */
  lemma {:induction false} ReplaceAroundShort(a: string, c: char, b: string, pattern: string, replacement: string)
    requires pattern != [] && c !in pattern && |a| < |pattern|
    ensures Replace(a + [c] + b, pattern, replacement) == a + [c] + Replace(b, pattern, replacement)
    decreases |a|, 0
  {
    var s := a + [c] + b;
    var n := |pattern|;
    if |s| < n {
      assert Replace(b, pattern, replacement) == b;
    } else {
      assert s[..n][|a|] == c;
      if a == [] {
        assert s[1..] == b;
      } else {
        assert s[1..] == a[1..] + [c] + b;
        ReplaceAroundShort(a[1..], c, b, pattern, replacement);
        assert [a[0]] + a[1..] == a;
      }
    }
  }

  /** Replacing a one-character pattern by something without it leaves no occurrence behind. */
  lemma {:induction false} ReplaceRemovesChar(s: string, c: char, replacement: string)
    requires c !in replacement
    ensures c !in Replace(s, [c], replacement)
    decreases |s|
  {
    if |s| >= 1 {
      ReplaceRemovesChar(s[1..], c, replacement);
      if s[..1] != [c] {
        assert s[0] != c;
      }
    }
  }

  /** `IndexOfCaseInsensitive` over a list: the first case-insensitive match, or -1. */
  function IndexOfIgnoreCase(names: seq<string>, name: string): (r: int)
    ensures -1 <= r < |names|
    ensures r >= 0 ==> EqualsIgnoreCase(names[r], name)
    ensures forall i :: 0 <= i < |names| && (r == -1 || i < r) ==> !EqualsIgnoreCase(names[i], name)
  {
    if names == [] then -1
    else if EqualsIgnoreCase(names[0], name) then 0
    else
      var k := IndexOfIgnoreCase(names[1..], name);
      if k == -1 then -1 else k + 1
  }

  /** `String.LastIndexOf(char)`: the last position of `c`, or -1. */
  function LastIndexOf(s: string, c: char): (r: int)
    ensures -1 <= r < |s|
    ensures r == -1 <==> c !in s
    ensures r >= 0 ==> s[r] == c
    ensures forall j :: r < j < |s| ==> s[j] != c
  {
    if s == [] then -1
    else if s[|s| - 1] == c then |s| - 1
    else LastIndexOf(s[..|s| - 1], c)
  }

  /** `IndexNotOfAny(s, {' ', '\t'})`: the first position that is not blank, or -1. */
  function IndexNotBlank(s: string): (r: int)
    ensures -1 <= r < |s|
    ensures r >= 0 ==> !IsBlank(s[r])
    ensures forall i :: 0 <= i < |s| && (r == -1 || i < r) ==> IsBlank(s[i])
  {
    if s == [] then -1
    else if !IsBlank(s[0]) then 0
    else
      var k := IndexNotBlank(s[1..]);
      if k == -1 then -1 else k + 1
  }

  /** The length of the leading run of non-blank characters. */
  function WordLength(s: string): (n: nat)
    ensures n <= |s|
    ensures forall i :: 0 <= i < n ==> !IsBlank(s[i])
    ensures n < |s| ==> IsBlank(s[n])
  {
    if s == [] || IsBlank(s[0]) then 0 else 1 + WordLength(s[1..])
  }

  /**
   * `SplitStringHonouringQuotes(s, " \t")` without its quote handling: the
   * maximal runs of non-blank characters, in order.
   */
  function SplitWords(s: string): (r: seq<string>)
    ensures forall i :: 0 <= i < |r| ==> r[i] != [] && forall j :: 0 <= j < |r[i]| ==> !IsBlank(r[i][j])
    decreases |s|
  {
    var t := TrimStartWhere(s, IsBlank);
    if t == [] then []
    else
      var n := WordLength(t);
      [t[..n]] + SplitWords(t[n..])
  }

  /** A word runs up to the first blank. */
  lemma {:induction false} WordLengthOf(w: string, rest: string)
    requires forall j :: 0 <= j < |w| ==> !IsBlank(w[j])
    requires rest == [] || IsBlank(rest[0])
    ensures WordLength(w + rest) == |w|
  {
    if w != [] {
      assert (w + rest)[1..] == w[1..] + rest;
      WordLengthOf(w[1..], rest);
    } else {
      assert w + rest == rest;
    }
  }

  /** A leading word ended by a blank or the end is the first of the words. */
  lemma SplitWordsWord(w: string, rest: string)
    requires w != [] && forall j :: 0 <= j < |w| ==> !IsBlank(w[j])
    requires rest == [] || IsBlank(rest[0])
    ensures SplitWords(w + rest) == [w] + SplitWords(rest)
  {
    WordLengthOf(w, rest);
    assert (w + rest)[..|w|] == w;
    assert (w + rest)[|w|..] == rest;
  }

  /** A leading blank does not change the words. */
  lemma SplitWordsBlank(c: char, rest: string)
    requires IsBlank(c)
    ensures SplitWords([c] + rest) == SplitWords(rest)
  {
    assert ([c] + rest)[1..] == rest;
  }
}
