/** The string functions of the Go library that the modelled code relies on. */
module Text {

  /** strings.Split with a one-character separator. */
  function Split(s: string, sep: char): (parts: seq<string>)
    ensures |parts| >= 1
  {
    if s == [] then [[]]
    else
      var rest := Split(s[1..], sep);
      if s[0] == sep then [[]] + rest else [[s[0]] + rest[0]] + rest[1..]
  }

  function Join(parts: seq<string>, sep: char): string
    requires |parts| >= 1
  {
    if |parts| == 1 then parts[0] else parts[0] + [sep] + Join(parts[1..], sep)
  }

  predicate MatchAt(s: string, sub: string, i: nat) {
    i + |sub| <= |s| && s[i..i + |sub|] == sub
  }

  /** strings.Contains. */
  predicate Contains(s: string, sub: string) {
    exists i: nat :: i <= |s| && MatchAt(s, sub, i)
  }

  /** strings.ReplaceAll for a non-empty pattern: leftmost matches, not overlapping, results not rescanned. */
  function ReplaceAll(s: string, pattern: string, replacement: string): string
    requires pattern != []
    decreases |s|, replacement
  {
    if s == [] then []
    else if pattern <= s then replacement + ReplaceAll(s[|pattern|..], pattern, replacement)
    else [s[0]] + ReplaceAll(s[1..], pattern, replacement)
  }

  // ---- Split and Join ----

  /** Splitting loses nothing, and no part contains the separator. */
  lemma {:induction false} JoinOfSplit(s: string, sep: char)
    ensures Join(Split(s, sep), sep) == s
    ensures forall i :: 0 <= i < |Split(s, sep)| ==> sep !in Split(s, sep)[i]
    ensures |Split(s, sep)| == 1 <==> sep !in s
  {
    if s != [] {
      JoinOfSplit(s[1..], sep);
      var rest := Split(s[1..], sep);
      assert s == [s[0]] + s[1..];
      if s[0] == sep {
        assert Split(s, sep)[1..] == rest;
      } else if |rest| > 1 {
        assert Split(s, sep)[1..] == rest[1..];
      }
    }
  }

  lemma {:induction false} SplitPlain(s: string, sep: char)
    requires sep !in s
    ensures Split(s, sep) == [s]
  {
    if s != [] {
      SplitPlain(s[1..], sep);
      assert [s[0]] + s[1..] == s;
    }
  }

  lemma {:induction false} SplitConcat(a: string, b: string, sep: char)
    requires sep !in a
    ensures Split(a + [sep] + b, sep) == [a] + Split(b, sep)
  {
    var s := a + [sep] + b;
    if a == [] {
      assert s[1..] == b;
    } else {
      SplitConcat(a[1..], b, sep);
      assert s[1..] == a[1..] + [sep] + b;
      assert [s[0]] + a[1..] == a;
    }
  }

  lemma {:induction false} SplitCount(a: string, b: string, sep: char)
    ensures |Split(a + [sep] + b, sep)| == |Split(a, sep)| + |Split(b, sep)|
  {
    var s := a + [sep] + b;
    if a == [] {
      assert s[1..] == b;
    } else {
      SplitCount(a[1..], b, sep);
      assert s[1..] == a[1..] + [sep] + b;
    }
  }

  /** Separator-free parts are recovered from their join. */
  lemma {:induction false} SplitOfJoin(parts: seq<string>, sep: char)
    requires |parts| >= 1 && forall i :: 0 <= i < |parts| ==> sep !in parts[i]
    ensures Split(Join(parts, sep), sep) == parts
  {
    if |parts| == 1 {
      SplitPlain(parts[0], sep);
    } else {
      SplitOfJoin(parts[1..], sep);
      SplitConcat(parts[0], Join(parts[1..], sep), sep);
    }
  }

  // ---- Contains and ReplaceAll ----

  lemma ContainsMiddle(a: string, sub: string, b: string)
    ensures Contains(a + sub + b, sub)
  {
    assert MatchAt(a + sub + b, sub, |a|);
  }

  /** A match is at the front or further on. */
  lemma ContainsStep(s: string, sub: string)
    ensures Contains(s, sub) <==> sub <= s || (s != [] && Contains(s[1..], sub))
  {
    if sub <= s {
      assert MatchAt(s, sub, 0);
    }
    if s != [] {
      if i: nat :| i <= |s[1..]| && MatchAt(s[1..], sub, i) {
        assert s[1..][i..i + |sub|] == s[i + 1..i + 1 + |sub|];
        assert MatchAt(s, sub, i + 1);
      }
      if i: nat :| 0 < i <= |s| && MatchAt(s, sub, i) {
        assert s[1..][i - 1..i - 1 + |sub|] == s[i..i + |sub|];
        assert MatchAt(s[1..], sub, i - 1);
      }
    }
  }

  /** A character of the pattern that the text lacks rules the pattern out. */
  lemma LacksCharacter(s: string, sub: string, c: char)
    requires c in sub && c !in s
    ensures !Contains(s, sub)
  {
    forall i: nat | i <= |s| ensures !MatchAt(s, sub, i) {
      if i + |sub| <= |s| {
        assert c !in s[i..i + |sub|];
      }
    }
  }

  lemma {:induction false} ReplaceNothing(s: string, pattern: string, replacement: string)
    requires pattern != [] && !Contains(s, pattern)
    ensures ReplaceAll(s, pattern, replacement) == s
  {
    ContainsStep(s, pattern);
    if s != [] {
      ReplaceNothing(s[1..], pattern, replacement);
    }
  }

  lemma {:induction false} ReplaceKeepsFree(s: string, pattern: string, replacement: string, c: char)
    requires pattern != [] && c !in s && c !in replacement
    ensures c !in ReplaceAll(s, pattern, replacement)
    decreases |s|
  {
    if s != [] {
      if pattern <= s {
        ReplaceKeepsFree(s[|pattern|..], pattern, replacement, c);
      } else {
        ReplaceKeepsFree(s[1..], pattern, replacement, c);
      }
    }
  }

  /** Replacing changes the length in the direction of the new text, strictly if anything was replaced. */
  lemma {:induction false} ReplaceLength(s: string, pattern: string, replacement: string)
    requires pattern != []
    ensures |replacement| > |pattern| ==> |ReplaceAll(s, pattern, replacement)| >= |s|
    ensures |replacement| > |pattern| && Contains(s, pattern) ==> |ReplaceAll(s, pattern, replacement)| > |s|
    ensures |replacement| < |pattern| ==> |ReplaceAll(s, pattern, replacement)| <= |s|
    ensures |replacement| < |pattern| && Contains(s, pattern) ==> |ReplaceAll(s, pattern, replacement)| < |s|
  {
    ContainsStep(s, pattern);
    if s != [] {
      if pattern <= s {
        ReplaceLength(s[|pattern|..], pattern, replacement);
      } else {
        ReplaceLength(s[1..], pattern, replacement);
      }
    }
  }

  /** A replacement with no effect either found nothing or replaced the pattern by itself. */
  lemma {:induction false} ReplaceIdentity(s: string, pattern: string, replacement: string)
    requires pattern != []
    ensures ReplaceAll(s, pattern, replacement) == s <==> !Contains(s, pattern) || replacement == pattern
  {
    ReplaceLength(s, pattern, replacement);
    ContainsStep(s, pattern);
    if s != [] {
      var r := ReplaceAll(s, pattern, replacement);
      if pattern <= s {
        assert s == pattern + s[|pattern|..];
        ReplaceIdentity(s[|pattern|..], pattern, replacement);
        if |replacement| == |pattern| {
          assert r[..|pattern|] == replacement && s[..|pattern|] == pattern;
        }
      } else {
        ReplaceIdentity(s[1..], pattern, replacement);
        assert r[1..] == ReplaceAll(s[1..], pattern, replacement);
        assert s == [s[0]] + s[1..];
      }
    }
  }

  lemma PrefixBeforeBreak(a: string, b: string, sep: char, pattern: string)
    requires sep !in pattern
    ensures pattern <= a + [sep] + b <==> pattern <= a
  {
    var s := a + [sep] + b;
    assert s[..|a|] == a;
    assert |a| < |pattern| ==> pattern[|a|] in pattern && pattern[|a|] != s[|a|];
    assert |pattern| <= |a| ==> s[..|pattern|] == a[..|pattern|];
  }

  lemma Associate(a: string, b: string, c: string)
    ensures a + (b + c) == (a + b) + c
  {
  }

  /** A pattern without line breaks is replaced line by line. */
  lemma {:induction false} ReplaceInLines(a: string, b: string, sep: char, pattern: string, replacement: string)
    requires pattern != [] && sep !in pattern
    ensures ReplaceAll(a + [sep] + b, pattern, replacement)
            == ReplaceAll(a, pattern, replacement) + ([sep] + ReplaceAll(b, pattern, replacement))
    decreases |a|
  {
    var s := a + [sep] + b;
    var rest := [sep] + ReplaceAll(b, pattern, replacement);
    PrefixBeforeBreak(a, b, sep, pattern);
    if a == [] {
      assert s[1..] == b;
    } else if pattern <= a {
      ReplaceInLines(a[|pattern|..], b, sep, pattern, replacement);
      assert s[|pattern|..] == a[|pattern|..] + [sep] + b;
      Associate(replacement, ReplaceAll(a[|pattern|..], pattern, replacement), rest);
    } else {
      ReplaceInLines(a[1..], b, sep, pattern, replacement);
      assert s[1..] == a[1..] + [sep] + b;
      Associate([a[0]], ReplaceAll(a[1..], pattern, replacement), rest);
    }
  }

  function EachReplaced(lines: seq<string>, pattern: string, replacement: string): (r: seq<string>)
    requires pattern != []
    ensures |r| == |lines|
  {
    seq(|lines|, i requires 0 <= i < |lines| => ReplaceAll(lines[i], pattern, replacement))
  }

  lemma EachReplacedRest(lines: seq<string>, pattern: string, replacement: string)
    requires |lines| >= 1 && pattern != []
    ensures EachReplaced(lines, pattern, replacement)[1..] == EachReplaced(lines[1..], pattern, replacement)
    ensures EachReplaced(lines, pattern, replacement)[0] == ReplaceAll(lines[0], pattern, replacement)
  {
  }

  lemma {:induction false} ReplaceInJoin(lines: seq<string>, sep: char, pattern: string, replacement: string)
    requires |lines| >= 1 && pattern != [] && sep !in pattern
    ensures ReplaceAll(Join(lines, sep), pattern, replacement) == Join(EachReplaced(lines, pattern, replacement), sep)
  {
    EachReplacedRest(lines, pattern, replacement);
    if |lines| > 1 {
      var a, b := lines[0], Join(lines[1..], sep);
      ReplaceInJoin(lines[1..], sep, pattern, replacement);
      ReplaceInLines(a, b, sep, pattern, replacement);
      Associate(ReplaceAll(a, pattern, replacement), [sep], ReplaceAll(b, pattern, replacement));
    }
  }

  /** The same, given what becomes of each line. */
  lemma ReplaceLines(lines: seq<string>, replaced: seq<string>, sep: char, pattern: string, replacement: string)
    requires 1 <= |lines| == |replaced| && pattern != [] && sep !in pattern
    requires forall i :: 0 <= i < |lines| ==> ReplaceAll(lines[i], pattern, replacement) == replaced[i]
    ensures ReplaceAll(Join(lines, sep), pattern, replacement) == Join(replaced, sep)
  {
    ReplaceInJoin(lines, sep, pattern, replacement);
    assert EachReplaced(lines, pattern, replacement) == replaced;
  }
}
