/** The JavaScript string operations the core relies on, over `seq<char>`:
    substring search (`includes`), ASCII case folding (the only folding the
    patterns of this program can observe), `join`, `split`, `trim` and the
    character replacements. */
module Strings {
  import opened Wrappers

  /** `sub` occurs in `s` starting at index `i`. */
  predicate StartsAt(s: string, sub: string, i: nat) {
    i + |sub| <= |s| && s[i..i + |sub|] == sub
  }

  /** `s.includes(sub)`. */
  predicate Contains(s: string, sub: string) {
    exists i: nat :: i <= |s| && StartsAt(s, sub, i)
  }

  lemma ContainsEmpty(s: string)
    ensures Contains(s, "")
  {
    assert StartsAt(s, "", 0);
  }

  /** An occurrence inside a part is an occurrence in the whole. */
  lemma ContainsInfix(a: string, sub: string, b: string)
    ensures Contains(a + sub + b, sub)
  {
    assert (a + sub + b)[|a|..|a| + |sub|] == sub;
    assert StartsAt(a + sub + b, sub, |a|);
  }

  // ------------------------------------------------------------------ case

  predicate IsAsciiUpper(c: char) { 'A' <= c <= 'Z' }
  predicate IsAsciiLetter(c: char) { 'A' <= c <= 'Z' || 'a' <= c <= 'z' }
  predicate IsDigit(c: char) { '0' <= c <= '9' }

  /** Lower-casing of one character, restricted to ASCII. */
  function LowerChar(c: char): (l: char)
    ensures IsAsciiUpper(c) ==> l as int == c as int + 32
    ensures !IsAsciiUpper(c) ==> l == c
  {
    if IsAsciiUpper(c) then (c as int + 32) as char else c
  }

  function Lower(s: string): (l: string)
    ensures |l| == |s|
    ensures forall i :: 0 <= i < |s| ==> l[i] == LowerChar(s[i])
  {
    seq(|s|, i requires 0 <= i < |s| => LowerChar(s[i]))
  }

  /** `pat` matches `s` at `i` when both are compared case-insensitively,
      as a JavaScript regular expression with the `i` flag and without the
      `u` flag compares an ASCII pattern: such a pattern letter matches its
      two ASCII cases and nothing else. */
  predicate MatchesAtIgnoreCase(s: string, pat: string, i: nat) {
    i + |pat| <= |s| && Lower(s[i..i + |pat|]) == Lower(pat)
  }

  /** Leftmost case-insensitive occurrence of `pat` at or after `from`. */
  function IndexOfIgnoreCase(s: string, pat: string, from: nat): (r: Option<nat>)
    ensures r.Some? ==> from <= r.value && MatchesAtIgnoreCase(s, pat, r.value)
    ensures r.Some? ==> forall j :: from <= j < r.value ==> !MatchesAtIgnoreCase(s, pat, j)
    ensures r.None? ==> forall j :: from <= j ==> !MatchesAtIgnoreCase(s, pat, j)
    decreases |s| - from
  {
    if from + |pat| > |s| then None
    else if MatchesAtIgnoreCase(s, pat, from) then Some(from)
    else IndexOfIgnoreCase(s, pat, from + 1)
  }

  /** `s.replace(/pat/i, '')`: the leftmost case-insensitive occurrence of
      `pat` is cut out; without one, `s` is returned unchanged. */
  function RemoveFirstIgnoreCase(s: string, pat: string): (r: string)
    ensures IndexOfIgnoreCase(s, pat, 0).None? ==> r == s
    ensures IndexOfIgnoreCase(s, pat, 0).Some? ==>
              var i := IndexOfIgnoreCase(s, pat, 0).value;
              |r| == |s| - |pat| && r == s[..i] + s[i + |pat|..]
  {
    match IndexOfIgnoreCase(s, pat, 0)
    case None => s
    case Some(i) => s[..i] + s[i + |pat|..]
  }

  /** `s.toLowerCase().endsWith(suffix)` for a lower-case ASCII `suffix`. */
  predicate EndsWithIgnoreCase(s: string, suffix: string) {
    |suffix| <= |s| && MatchesAtIgnoreCase(s, suffix, |s| - |suffix|)
  }

  // --------------------------------------------------------- join and split

  /** `xs.join(sep)`. */
  function Join(xs: seq<string>, sep: string): string {
    if |xs| == 0 then ""
    else if |xs| == 1 then xs[0]
    else xs[0] + sep + Join(xs[1..], sep)
  }

  /** `s.split(sep)` for a one-character separator: the maximal pieces
      between separators, so there is always at least one piece. */
  function Split(s: string, sep: char): (parts: seq<string>)
    ensures |parts| >= 1
    ensures forall p :: p in parts ==> sep !in p
    ensures Join(parts, [sep]) == s
  {
    if s == [] then [""]
    else
      var rest := Split(s[1..], sep);
      assert s == [s[0]] + s[1..];
      if s[0] == sep then
        JoinAfterEmpty(rest, [sep]);
        [""] + rest
      else
        JoinPrependChar(s[0], rest, [sep]);
        var r := [[s[0]] + rest[0]] + rest[1..];
        assert forall p :: p in r ==> p == [s[0]] + rest[0] || p in rest;
        r
  }

  /** An empty first piece contributes only its separator. */
  lemma JoinAfterEmpty(rest: seq<string>, sep: string)
    requires |rest| >= 1
    ensures Join([""] + rest, sep) == sep + Join(rest, sep)
  {
    assert ([""] + rest)[1..] == rest;
  }

  /** A character put in front of the first piece goes in front of the join. */
  lemma JoinPrependChar(c: char, rest: seq<string>, sep: string)
    requires |rest| >= 1
    ensures Join([[c] + rest[0]] + rest[1..], sep) == [c] + Join(rest, sep)
  {
    var r := [[c] + rest[0]] + rest[1..];
    assert r[1..] == rest[1..];
    if |rest| > 1 {
      assert ([c] + rest[0]) + sep + Join(rest[1..], sep) == [c] + (rest[0] + sep + Join(rest[1..], sep));
    }
  }

  /** Splitting a part without separators at a separator peels that part off. */
  lemma {:induction false} SplitAfterPart(a: string, sep: char, b: string)
    requires sep !in a
    ensures Split(a + [sep] + b, sep) == [a] + Split(b, sep)
  {
    if a != [] {
      assert (a + [sep] + b)[1..] == a[1..] + [sep] + b;
      SplitAfterPart(a[1..], sep, b);
      assert [a[0]] + a[1..] == a;
    } else {
      assert a + [sep] + b == [sep] + b;
      assert ([sep] + b)[1..] == b;
    }
  }

  lemma {:induction false} SplitWithoutSeparator(a: string, sep: char)
    requires sep !in a
    ensures Split(a, sep) == [a]
  {
    if a != [] {
      SplitWithoutSeparator(a[1..], sep);
      assert [a[0]] + a[1..] == a;
    }
  }

  /** Round trip: splitting a join at the same separator gives the parts back,
      when no part contains the separator. */
  lemma {:induction false} SplitJoin(parts: seq<string>, sep: char)
    requires |parts| >= 1
    requires forall p :: p in parts ==> sep !in p
    ensures Split(Join(parts, [sep]), sep) == parts
  {
    if |parts| == 1 {
      SplitWithoutSeparator(parts[0], sep);
    } else {
      SplitJoin(parts[1..], sep);
      SplitAfterPart(parts[0], sep, Join(parts[1..], [sep]));
      assert [parts[0]] + parts[1..] == parts;
    }
  }

  // ------------------------------------------------------------------ trim

  /** The characters `String.prototype.trim` removes: the ECMAScript
      WhiteSpace and LineTerminator code points. */
  predicate IsJsSpace(c: char) {
    c == '\t' || c == '\n' || c == '\U{000B}' || c == '\U{000C}' || c == '\r' || c == ' '
    || c == '\U{00A0}' || c == '\U{1680}' || ('\U{2000}' <= c <= '\U{200A}')
    || c == '\U{2028}' || c == '\U{2029}' || c == '\U{202F}' || c == '\U{205F}'
    || c == '\U{3000}' || c == '\U{FEFF}'
  }

  /** Neither end of `s` is a space. */
  predicate IsTrimmed(s: string) {
    s == [] || (!IsJsSpace(s[0]) && !IsJsSpace(s[|s| - 1]))
  }

  function TrimStart(s: string): (r: string)
    ensures |r| <= |s| && r == s[|s| - |r|..]
    ensures forall k :: 0 <= k < |s| - |r| ==> IsJsSpace(s[k])
    ensures r == [] || !IsJsSpace(r[0])
  {
    if s != [] && IsJsSpace(s[0]) then
      var r := TrimStart(s[1..]);
      assert s[1..][|s| - 1 - |r|..] == s[|s| - |r|..];
      assert forall k :: 1 <= k < |s| - |r| ==> s[k] == s[1..][k - 1];
      r
    else s
  }

  function TrimEnd(s: string): (r: string)
    ensures |r| <= |s| && r == s[..|r|]
    ensures forall k :: |r| <= k < |s| ==> IsJsSpace(s[k])
    ensures r == [] || !IsJsSpace(r[|r| - 1])
  {
    if s != [] && IsJsSpace(s[|s| - 1]) then
      var r := TrimEnd(s[..|s| - 1]);
      assert s[..|s| - 1][..|r|] == s[..|r|];
      assert forall k :: |r| <= k < |s| - 1 ==> s[k] == s[..|s| - 1][k];
      r
    else s
  }

  /** `r` occurs in `s` at `i`, and everything before and after it is space. */
  predicate SpacesAround(s: string, i: nat, r: string) {
    i + |r| <= |s| && s[i..i + |r|] == r
    && (forall k :: 0 <= k < i ==> IsJsSpace(s[k]))
    && (forall k :: i + |r| <= k < |s| ==> IsJsSpace(s[k]))
  }

  /** `s.trim()`: the middle of `s` left once the spaces at both ends are gone. */
  function Trim(s: string): (r: string)
    ensures IsTrimmed(r)
    ensures |r| <= |s|
    ensures exists i :: SpacesAround(s, i, r)
    ensures IsTrimmed(s) ==> r == s
  {
    var t := TrimStart(s);
    var r := TrimEnd(t);
    TrimmedEnds(s, t, r);
    r
  }

  /** Spaces cut off the front of `s`, then off the back of what is left,
      surround what remains. */
  lemma TrimmedEnds(s: string, t: string, r: string)
    requires |t| <= |s| && t == s[|s| - |t|..]
    requires forall k :: 0 <= k < |s| - |t| ==> IsJsSpace(s[k])
    requires |r| <= |t| && r == t[..|r|]
    requires forall k :: |r| <= k < |t| ==> IsJsSpace(t[k])
    ensures SpacesAround(s, |s| - |t|, r)
  {
    PrefixOfSuffix(s, t, r);
    forall k | |s| - |t| + |r| <= k < |s|
      ensures IsJsSpace(s[k])
    {
      assert s[k] == t[k - (|s| - |t|)];
    }
  }

  /** A prefix of a suffix of `s` occurs in `s` where the suffix starts. */
  lemma PrefixOfSuffix(s: string, t: string, r: string)
    requires |t| <= |s| && t == s[|s| - |t|..]
    requires |r| <= |t| && r == t[..|r|]
    ensures StartsAt(s, r, |s| - |t|)
  {
    assert r == s[|s| - |t|..|s| - |t| + |r|];
  }

  /** A string whose last character is not a space survives trimming. */
  lemma TrimKeepsNonSpaceEnd(s: string)
    requires s != [] && !IsJsSpace(s[|s| - 1])
    ensures Trim(s) != ""
  {
    var t := TrimStart(s);
    assert t[|t| - 1] == s[|s| - 1];
  }

  // ------------------------------------------------------------ replacement

  /** `s.replace(/c/g, d)`: every `c` becomes `d`. */
  function ReplaceAll(s: string, c: char, d: char): (r: string)
    ensures |r| == |s|
    ensures c != d ==> c !in r
    ensures forall i :: 0 <= i < |s| && s[i] == c ==> r[i] == d
    ensures forall i :: 0 <= i < |s| && s[i] != c ==> r[i] == s[i]
  {
    seq(|s|, i requires 0 <= i < |s| => if s[i] == c then d else s[i])
  }

  /** `s.replace(c, d)` with a one-character string pattern: only the first
      `c` is replaced. */
  function ReplaceFirst(s: string, c: char, d: char): (r: string)
    ensures |r| == |s|
    ensures c !in s ==> r == s
  {
    if s == [] then s
    else if s[0] == c then [d] + s[1..]
    else [s[0]] + ReplaceFirst(s[1..], c, d)
  }

  lemma {:induction false} ReplaceFirstAt(a: string, c: char, d: char, b: string)
    requires c !in a
    ensures ReplaceFirst(a + [c] + b, c, d) == a + [d] + b
  {
    if a != [] {
      assert (a + [c] + b)[1..] == a[1..] + [c] + b;
      ReplaceFirstAt(a[1..], c, d, b);
      assert [a[0]] + a[1..] == a;
    } else {
      assert a + [c] + b == [c] + b;
      assert ([c] + b)[1..] == b;
    }
  }
}
