/** The string operations the client (JavaScript) and the server (Python)
    use on identifiers, labels, paths and URLs. Strings are sequences of
    characters; case mapping is the ASCII one. */
module Text {

  predicate StartsWith(s: string, prefix: string) {
    |prefix| <= |s| && s[..|prefix|] == prefix
  }

  predicate EndsWith(s: string, suffix: string) {
    |suffix| <= |s| && s[|s| - |suffix|..] == suffix
  }

  /** `s.includes(sub)` / `sub in s`. */
  predicate Contains(s: string, sub: string)
    decreases |s|
  {
    StartsWith(s, sub) || (s != [] && Contains(s[1..], sub))
  }

  /** The first index at which `sub` occurs in `s`, or -1 (`indexOf`, `find`). */
  function IndexOf(s: string, sub: string): (i: int)
    ensures -1 <= i && (i >= 0 ==> i <= |s| - |sub|)
    ensures i >= 0 ==> s[i..i + |sub|] == sub
    ensures i >= 0 ==> forall j :: 0 <= j < i ==> !StartsWith(s[j..], sub)
    ensures i == -1 <==> !Contains(s, sub)
    decreases |s|
  {
    if StartsWith(s, sub) then 0
    else if s == [] then -1
    else
      var k := IndexOf(s[1..], sub);
      if k == -1 then -1
      else
        assert forall j :: 1 <= j <= k ==> s[j..] == s[1..][j - 1..];
        k + 1
  }

  /** A pattern that ends a string is first found where it starts, when it
      does not occur in the string before it and its first character does
      not recur in it (so no occurrence can straddle the join). */
  lemma FirstOccurrence(a: string, pattern: string)
    requires pattern != [] && pattern[0] !in pattern[1..] && !Contains(a, pattern)
    ensures IndexOf(a + pattern, pattern) == |a|
  {
    var s := a + pattern;
    assert s[|a|..] == pattern;
    assert StartsWith(s[|a|..], pattern);
    ContainsAt(s, pattern, |a|);
    var i := IndexOf(s, pattern);
    assert 0 <= i <= |a|;
    assert StartsWith(s[i..], pattern) by {
      assert s[i..][..|pattern|] == s[i..i + |pattern|];
    }
    if i < |a| {
      NotBefore(a, pattern, i);
    }
  }

  /** Under the conditions of `FirstOccurrence`, the pattern starts at no
      position of the string before it. */
  lemma NotBefore(a: string, pattern: string, j: nat)
    requires pattern != [] && pattern[0] !in pattern[1..] && !Contains(a, pattern) && j < |a|
    ensures !StartsWith((a + pattern)[j..], pattern)
  {
    var s := a + pattern;
    if j + |pattern| <= |a| {
      assert s[j..][..|pattern|] == a[j..][..|pattern|];
      if StartsWith(a[j..], pattern) {
        ContainsAt(a, pattern, j);
      }
    } else {
      // the pattern's first character, at the join, sits where the
      // pattern would need a later character that differs from it
      var k := |a| - j;
      assert s[j..][k] == pattern[0];
      assert pattern[1..][k - 1] == pattern[k];
      assert s[j..][k] != pattern[k];
    }
  }

  /** An occurrence at any position is an occurrence. */
  lemma {:induction false} ContainsAt(s: string, sub: string, k: nat)
    requires k <= |s| && StartsWith(s[k..], sub)
    ensures Contains(s, sub)
    decreases k
  {
    if k > 0 {
      assert s[k..] == s[1..][k - 1..];
      ContainsAt(s[1..], sub, k - 1);
    }
  }

  /** `s.replace(pattern, replacement)` with a string pattern, in JavaScript
      (first occurrence only), and Python's `s.replace(pattern, replacement, 1)`. */
  function ReplaceFirst(s: string, pattern: string, replacement: string): (r: string)
    ensures !Contains(s, pattern) ==> r == s
  {
    var i := IndexOf(s, pattern);
    if i < 0 then s else s[..i] + replacement + s[i + |pattern|..]
  }

  /** `s.replace(c, '')` for every occurrence of the character `c` (Python). */
  function RemoveChar(s: string, c: char): (r: string)
    ensures c !in r
    ensures |r| <= |s|
    ensures forall d :: d in r ==> d in s
  {
    if s == [] then []
    else if s[0] == c then RemoveChar(s[1..], c)
    else [s[0]] + RemoveChar(s[1..], c)
  }

  /** JavaScript's `s.split(sep)` for a one-character separator: the pieces
      between separators, including empty ones. */
  function Split(s: string, sep: char): (parts: seq<string>)
    ensures |parts| >= 1
    ensures forall i :: 0 <= i < |parts| ==> sep !in parts[i]
    decreases |s|
  {
    if s == [] then [""]
    else
      var rest := Split(s[1..], sep);
      if s[0] == sep then [""] + rest
      else [[s[0]] + rest[0]] + rest[1..]
  }

  /** `parts.join(sep)`. */
  function Join(parts: seq<string>, sep: string): string {
    if parts == [] then ""
    else if |parts| == 1 then parts[0]
    else parts[0] + sep + Join(parts[1..], sep)
  }

  /** Splitting and joining again with the same separator gives back the
      original string: no character is lost or added by `Split`. */
  lemma {:induction false} JoinSplit(s: string, sep: char)
    ensures Join(Split(s, sep), [sep]) == s
    decreases |s|
  {
    if s != [] {
      JoinSplit(s[1..], sep);
      var rest := Split(s[1..], sep);
      if s[0] != sep && |rest| > 1 {
        assert Split(s, sep)[1..] == rest[1..];
        assert Join(rest, [sep]) == rest[0] + [sep] + Join(rest[1..], [sep]);
      }
    }
  }

  /** The first piece of `Split(s, sep)` is the prefix of `s` before the first
      separator (all of `s` when there is none). */
  lemma {:induction false} SplitHead(s: string, sep: char)
    ensures StartsWith(s, Split(s, sep)[0])
    ensures sep in s ==> |Split(s, sep)[0]| < |s| && s[|Split(s, sep)[0]|] == sep
    ensures sep !in s ==> Split(s, sep) == [s]
    decreases |s|
  {
    if s != [] {
      SplitHead(s[1..], sep);
      if s[0] != sep {
        assert sep in s ==> sep in s[1..];
        assert s == [s[0]] + s[1..];
      }
    }
  }

  /** A piece without the separator, followed by a separator, is the first
      piece of the split. */
  lemma {:induction false} SplitAfterPiece(a: string, rest: string, sep: char)
    requires sep !in a && rest != [] && rest[0] == sep
    ensures Split(a + rest, sep) == [a] + Split(rest[1..], sep)
    decreases |a|
  {
    if a == [] {
      assert a + rest == rest;
    } else {
      assert (a + rest)[1..] == a[1..] + rest;
      SplitAfterPiece(a[1..], rest, sep);
      assert a == [a[0]] + a[1..];
    }
  }

  /** Both parts of a concatenation are found at its ends. */
  lemma ConcatEnds(a: string, b: string)
    ensures StartsWith(a + b, a) && EndsWith(a + b, b)
  {
    assert (a + b)[..|a|] == a;
    assert (a + b)[|a|..] == b;
  }

  /** Trimming only removes characters. */
  lemma TrimKeepsChars(s: string, space: char -> bool)
    ensures forall x :: x in Trim(s, space) ==> x in s
  {
    var t := TrimStart(s, space);
    assert t == s[|s| - |t|..];
    var r := TrimEnd(t, space);
    assert r == t[..|r|];
    assert forall x :: x in r ==> x in t;
  }

  function Lower(c: char): char {
    if 'A' <= c <= 'Z' then (c as int + 32) as char else c
  }

  function Upper(c: char): char {
    if 'a' <= c <= 'z' then (c as int - 32) as char else c
  }

  /** `s.toLowerCase()` / `s.lower()` on ASCII letters. */
  function ToLower(s: string): (r: string)
    ensures |r| == |s|
    ensures forall i :: 0 <= i < |s| ==> r[i] == Lower(s[i])
  {
    if s == [] then [] else [Lower(s[0])] + ToLower(s[1..])
  }

  /** Text without capital letters is its own lower case. */
  lemma LowerOfLower(s: string)
    requires forall i :: 0 <= i < |s| ==> !('A' <= s[i] <= 'Z')
    ensures ToLower(s) == s
  {
    assert forall i :: 0 <= i < |s| ==> ToLower(s)[i] == s[i];
  }

  /** `w.charAt(0).toUpperCase() + w.slice(1)`. */
  function Capitalize(w: string): (r: string)
    ensures |r| == |w|
    ensures w != [] ==> r[0] == Upper(w[0]) && r[1..] == w[1..]
  {
    if w == [] then [] else [Upper(w[0])] + w[1..]
  }

  /** The characters JavaScript's `String.prototype.trim` removes. */
  predicate IsJsSpace(c: char) {
    c in {' ', '\t', '\n', '\r', '\U{B}', '\U{C}', '\U{A0}', '\U{1680}', '\U{2028}',
          '\U{2029}', '\U{202F}', '\U{205F}', '\U{3000}', '\U{FEFF}'}
    || '\U{2000}' <= c <= '\U{200A}'
  }

  /** The characters Python's `str.strip()` removes (`str.isspace`). */
  predicate IsPySpace(c: char) {
    c in {' ', '\t', '\n', '\r', '\U{B}', '\U{C}', '\U{85}', '\U{A0}', '\U{1680}',
          '\U{2028}', '\U{2029}', '\U{202F}', '\U{205F}', '\U{3000}'}
    || '\U{1C}' <= c <= '\U{1F}' || '\U{2000}' <= c <= '\U{200A}'
  }

  function TrimStart(s: string, space: char -> bool): (r: string)
    ensures |r| <= |s| && EndsWith(s, r)
    ensures r != [] ==> !space(r[0])
    ensures forall i :: 0 <= i < |s| - |r| ==> space(s[i])
  {
    if s != [] && space(s[0]) then TrimStart(s[1..], space) else s
  }

  function TrimEnd(s: string, space: char -> bool): (r: string)
    ensures |r| <= |s| && StartsWith(s, r)
    ensures r != [] ==> !space(r[|r| - 1])
    ensures forall i :: |r| <= i < |s| ==> space(s[i])
  {
    if s != [] && space(s[|s| - 1]) then TrimEnd(s[..|s| - 1], space) else s
  }

  /** Both ends trimmed of the characters `space` accepts. */
  function Trim(s: string, space: char -> bool): (r: string)
    ensures r != [] ==> !space(r[0]) && !space(r[|r| - 1])
    ensures |r| <= |s|
  {
    var t := TrimStart(s, space);
    var r := TrimEnd(t, space);
    assert r != [] ==> r[0] == t[0];
    r
  }

  function Digit(d: nat): char
    requires d < 10
  {
    "0123456789"[d]
  }

  /** The decimal rendering of a non-negative integer, as `${n}` and
      `f"{n}"` write it. */
  function NatToString(n: nat): (r: string)
    ensures r != []
    ensures forall i :: 0 <= i < |r| ==> '0' <= r[i] <= '9'
  {
    if n < 10 then [Digit(n)] else NatToString(n / 10) + [Digit(n % 10)]
  }
}
