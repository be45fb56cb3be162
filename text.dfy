/** The Python string operations the extraction engine is built from:
    whitespace tokenising (str.split()), splitting on a separator
    (str.split(sep)), joining, stripping and replacing. Strings are
    sequences of Unicode scalar values, as Python's str is. */
module Text {

  /** The characters for which Python's str.isspace() holds. str.split(),
      str.strip() and the regular-expression class \s all use this set. */
  predicate IsSpace(c: char) {
    ('\t' <= c <= '\r') || ('\U{1C}' <= c <= ' ') || c == '\U{85}' || c == '\U{A0}'
    || c == '\U{1680}' || ('\U{2000}' <= c <= '\U{200A}') || c == '\U{2028}'
    || c == '\U{2029}' || c == '\U{202F}' || c == '\U{205F}' || c == '\U{3000}'
  }

  /** The regular-expression class \d, restricted to ASCII digits. */
  predicate IsDigit(c: char) {
    '0' <= c <= '9'
  }

  predicate NoSpace(s: string) {
    forall i :: 0 <= i < |s| ==> !IsSpace(s[i])
  }

  predicate AllSpace(s: string) {
    forall i :: 0 <= i < |s| ==> IsSpace(s[i])
  }

  predicate AllDigits(s: string) {
    forall i :: 0 <= i < |s| ==> IsDigit(s[i])
  }

  /** A token of str.split(): a non-empty run of non-space characters. */
  predicate IsToken(t: string) {
    |t| > 0 && NoSpace(t)
  }

  /** s.startswith(p) */
  predicate StartsWith(s: string, p: string) {
    |p| <= |s| && s[..|p|] == p
  }

  /** s.endswith(p) */
  predicate EndsWith(s: string, p: string) {
    |p| <= |s| && s[|s| - |p|..] == p
  }

  /** sub occurs in s starting at index k. */
  predicate OccursAt(s: string, sub: string, k: nat) {
    k + |sub| <= |s| && s[k..k + |sub|] == sub
  }

  /** sub in s */
  predicate Contains(s: string, sub: string) {
    exists k: nat | k <= |s| :: OccursAt(s, sub, k)
  }

  /** An occurrence in a suffix of s is an occurrence in s, shifted. */
  lemma OccursAtDrop(s: string, sub: string, d: nat, k: nat)
    requires d <= |s|
    ensures OccursAt(s[d..], sub, k) <==> OccursAt(s, sub, k + d)
  {
    if k + |sub| <= |s| - d {
      assert s[d..][k..k + |sub|] == s[k + d..k + d + |sub|];
    }
  }

  /** The index of the first space at or after i, or |s| if there is none. */
  function RunEnd(s: string, i: nat): (j: nat)
    requires i <= |s|
    ensures i <= j <= |s|
    ensures NoSpace(s[i..j])
    ensures j < |s| ==> IsSpace(s[j])
    decreases |s| - i
  {
    if i == |s| || IsSpace(s[i]) then i else RunEnd(s, i + 1)
  }

  /** RunEnd finds the first space: any j with no space before it and a
      space (or the end) at it is the answer. */
  lemma {:induction false} RunEndUnique(s: string, i: nat, j: nat)
    requires i <= j <= |s|
    requires NoSpace(s[i..j])
    requires j == |s| || IsSpace(s[j])
    ensures RunEnd(s, i) == j
    decreases j - i
  {
    if i < j {
      assert s[i..j][0] == s[i];
      assert s[i + 1..j] == s[i..j][1..];
      RunEndUnique(s, i + 1, j);
    }
  }

  /** str.split() with no argument: the maximal runs of non-space
      characters of s, in order. */
  function Split(s: string): (r: seq<string>)
    ensures forall k :: 0 <= k < |r| ==> IsToken(r[k])
    decreases |s|
  {
    if s == [] then []
    else if IsSpace(s[0]) then Split(s[1..])
    else
      var n := RunEnd(s, 0);
      [s[..n]] + Split(s[n..])
  }

  /** sep.join(parts) */
  function Join(parts: seq<string>, sep: string): string {
    if |parts| == 0 then ""
    else if |parts| == 1 then parts[0]
    else parts[0] + sep + Join(parts[1..], sep)
  }

  /** ' '.join(parts), the way the engine glues tokens back together. */
  function JoinWords(parts: seq<string>): string {
    Join(parts, " ")
  }

  lemma JoinWordsPair(a: string, b: string)
    ensures JoinWords([a, b]) == a + " " + b
  {
    assert [a, b][1..] == [b];
    assert Join([a, b][1..], " ") == b;
  }

  lemma JoinTwo(parts: seq<string>, sep: string)
    requires |parts| == 2
    ensures Join(parts, sep) == parts[0] + sep + parts[1]
  {
    assert parts[1..] == [parts[1]];
  }

  lemma JoinWordsTriple(a: string, b: string, c: string)
    ensures JoinWords([a, b, c]) == a + " " + b + " " + c
  {
    assert [a, b, c][1..] == [b, c];
    JoinWordsPair(b, c);
  }

  /** Tokens glued with single spaces split back into the same tokens. */
  lemma {:induction false} SplitJoinWords(ts: seq<string>)
    requires forall k :: 0 <= k < |ts| ==> IsToken(ts[k])
    ensures Split(JoinWords(ts)) == ts
  {
    if |ts| == 0 {
    } else if |ts| == 1 {
      SplitToken(ts[0], "");
      assert ts[0] + "" == ts[0];
    } else {
      var t, rest := ts[0], JoinWords(ts[1..]);
      SplitJoinWords(ts[1..]);
      assert JoinWords(ts) == t + (" " + rest);
      SplitToken(t, " " + rest);
      assert (" " + rest)[1..] == rest;
      assert Split(" " + rest) == Split(rest);
      assert ts == [t] + ts[1..];
    }
  }

  /** A token followed by nothing or by a space is split off whole. */
  lemma SplitToken(t: string, rest: string)
    requires IsToken(t)
    requires rest == [] || IsSpace(rest[0])
    ensures Split(t + rest) == [t] + Split(rest)
  {
    var s := t + rest;
    assert s[..|t|] == t;
    RunEndUnique(s, 0, |t|);
    assert s[|t|..] == rest;
  }

  /** str.split(sep) for a non-empty separator: the pieces of s between the
      non-overlapping occurrences of sep found from left to right. Joining
      the pieces with sep gives s back. */
  function SplitOn(s: string, sep: string): (r: seq<string>)
    requires |sep| > 0
    ensures |r| > 0
    ensures Join(r, sep) == s
    decreases |s|
  {
    if |s| < |sep| then [s]
    else if s[..|sep|] == sep then
      var rest := SplitOn(s[|sep|..], sep);
      assert Join([""] + rest, sep) == sep + Join(rest, sep);
      [""] + rest
    else
      var rest := SplitOn(s[1..], sep);
      var r := [[s[0]] + rest[0]] + rest[1..];
      assert Join(r, sep) == [s[0]] + Join(rest, sep) by {
        if |rest| > 1 {
          assert r[1..] == rest[1..];
        }
      }
      r
  }

  /** Split at a one-character separator, no piece holds the separator. */
  lemma {:induction false} SplitOnCharPieces(s: string, c: char)
    ensures forall i :: 0 <= i < |SplitOn(s, [c])| ==> c !in SplitOn(s, [c])[i]
    decreases |s|
  {
    if |s| >= 1 {
      SplitOnCharPieces(s[1..], c);
      if s[..1] != [c] {
        assert s[0] != c;
      }
    }
  }

  /** A string in which sep does not occur is one piece. */
  lemma {:induction false} SplitOnAbsent(s: string, sep: string)
    requires |sep| > 0
    requires !Contains(s, sep)
    ensures SplitOn(s, sep) == [s]
    decreases |s|
  {
    if |s| >= |sep| {
      assert !OccursAt(s, sep, 0);
      assert !Contains(s[1..], sep) by {
        forall k: nat | k <= |s[1..]| ensures !OccursAt(s[1..], sep, k) {
          OccursAtDrop(s, sep, 1, k);
          assert !OccursAt(s, sep, k + 1);
        }
      }
      SplitOnAbsent(s[1..], sep);
      assert [s[0]] + s[1..] == s;
    }
  }

  /** When the first occurrence of sep in x + sep + y is the one right after
      x, x is the first piece. */
  lemma {:induction false} SplitOnFirstPiece(x: string, sep: string, y: string)
    requires |sep| > 0
    requires forall k: nat :: k < |x| ==> !OccursAt(x + sep + y, sep, k)
    ensures SplitOn(x + sep + y, sep) == [x] + SplitOn(y, sep)
    decreases |x|
  {
    var s := x + sep + y;
    if x == [] {
      assert s[..|sep|] == sep;
      assert s[|sep|..] == y;
    } else {
      assert !OccursAt(s, sep, 0);
      assert s[1..] == x[1..] + sep + y;
      forall k: nat | k < |x[1..]| ensures !OccursAt(x[1..] + sep + y, sep, k) {
        OccursAtDrop(s, sep, 1, k);
        assert !OccursAt(s, sep, k + 1);
      }
      SplitOnFirstPiece(x[1..], sep, y);
      assert [x[0]] + x[1..] == x;
    }
  }

  /** The number of spaces at the start of s. */
  function LeadingSpaces(s: string): (n: nat)
    ensures n <= |s|
    ensures forall i :: 0 <= i < n ==> IsSpace(s[i])
    ensures n < |s| ==> !IsSpace(s[n])
  {
    if s == [] || !IsSpace(s[0]) then 0 else 1 + LeadingSpaces(s[1..])
  }

  /** The number of spaces at the end of s. */
  function TrailingSpaces(s: string): (n: nat)
    ensures n <= |s|
    ensures forall i :: |s| - n <= i < |s| ==> IsSpace(s[i])
    ensures n < |s| ==> !IsSpace(s[|s| - 1 - n])
  {
    if s == [] || !IsSpace(s[|s| - 1]) then 0 else 1 + TrailingSpaces(s[..|s| - 1])
  }

  /** str.strip() with no argument: s without its leading and trailing
      whitespace. */
  function Strip(s: string): (r: string)
    ensures r == [] || (!IsSpace(r[0]) && !IsSpace(r[|r| - 1]))
    ensures exists a: nat :: a + |r| <= |s| && r == s[a..a + |r|]
                             && AllSpace(s[..a]) && AllSpace(s[a + |r|..])
  {
    var a := LeadingSpaces(s);
    var b := TrailingSpaces(s[a..]);
    StripBounds(s, a, b);
    s[a..|s| - b]
  }

  /** The cut Strip makes is s[a..|s| - b]: only spaces are cut off and
      the kept part begins and ends with a non-space. */
  lemma StripBounds(s: string, a: nat, b: nat)
    requires a == LeadingSpaces(s) && b == TrailingSpaces(s[a..])
    ensures a <= |s| - b
    ensures var r := s[a..|s| - b];
            && (r == [] || (!IsSpace(r[0]) && !IsSpace(r[|r| - 1])))
            && AllSpace(s[..a]) && AllSpace(s[|s| - b..])
  {
    var t := s[a..];
    var tail := s[|s| - b..];
    forall i | 0 <= i < |tail| ensures IsSpace(tail[i]) {
      assert tail[i] == t[|t| - b + i];
    }
  }

  /** s.replace(target, replacement) for a non-empty target: every
      non-overlapping occurrence, found from left to right, is replaced. */
  function Replace(s: string, target: string, replacement: string): string
    requires |target| > 0
    decreases |s|
  {
    if |s| < |target| then s
    else if s[..|target|] == target then replacement + Replace(s[|target|..], target, replacement)
    else [s[0]] + Replace(s[1..], target, replacement)
  }

  /** A string without the target is left as it is. */
  lemma {:induction false} ReplaceAbsent(s: string, target: string, replacement: string)
    requires |target| > 0
    requires !Contains(s, target)
    ensures Replace(s, target, replacement) == s
    decreases |s|
  {
    if |s| >= |target| {
      assert !OccursAt(s, target, 0);
      assert !Contains(s[1..], target) by {
        forall k: nat | k <= |s[1..]| ensures !OccursAt(s[1..], target, k) {
          OccursAtDrop(s, target, 1, k);
          assert !OccursAt(s, target, k + 1);
        }
      }
      ReplaceAbsent(s[1..], target, replacement);
      assert [s[0]] + s[1..] == s;
    }
  }

  /** No occurrence of the target in a + b starts inside a and ends inside b. */
  predicate NoStraddle(a: string, b: string, target: string) {
    forall k: nat :: k < |a| < k + |target| ==> !OccursAt(a + b, target, k)
  }

  /** Dropping a prefix of a keeps the boundary free of straddling occurrences. */
  lemma NoStraddleDrop(a: string, b: string, target: string, d: nat)
    requires d <= |a|
    requires NoStraddle(a, b, target)
    ensures NoStraddle(a[d..], b, target)
  {
    var s := a + b;
    assert s[d..] == a[d..] + b;
    forall k: nat | k < |a[d..]| < k + |target| ensures !OccursAt(a[d..] + b, target, k) {
      OccursAtDrop(s, target, d, k);
    }
  }

  /** Replacing distributes over a + b when no occurrence of the target
      straddles the boundary between a and b. */
  lemma {:induction false} ReplaceAppend(a: string, b: string, target: string, replacement: string)
    requires |target| > 0
    requires NoStraddle(a, b, target)
    ensures Replace(a + b, target, replacement)
            == Replace(a, target, replacement) + Replace(b, target, replacement)
    decreases |a|
  {
    if a == [] {
      assert a + b == b;
    } else if |a| < |target| || a[..|target|] != target {
      NoStraddleDrop(a, b, target, 1);
      ReplaceAppend(a[1..], b, target, replacement);
      ReplaceAppendMiss(a, b, target, replacement);
    } else {
      NoStraddleDrop(a, b, target, |target|);
      ReplaceAppend(a[|target|..], b, target, replacement);
      ReplaceAppendHit(a, b, target, replacement);
    }
  }

  /** The step of ReplaceAppend where a does not begin with the target. */
  lemma ReplaceAppendMiss(a: string, b: string, target: string, replacement: string)
    requires |target| > 0 && |a| > 0
    requires |a| < |target| || a[..|target|] != target
    requires NoStraddle(a, b, target)
    requires Replace(a[1..] + b, target, replacement)
             == Replace(a[1..], target, replacement) + Replace(b, target, replacement)
    ensures Replace(a + b, target, replacement)
            == Replace(a, target, replacement) + Replace(b, target, replacement)
  {
    if |a| < |target| {
      assert !OccursAt(a + b, target, 0);
      ReplaceShort(a, target, replacement);
      ReplaceShort(a[1..], target, replacement);
      ReplaceShortMiss(a, b, target, replacement);
    } else {
      ReplaceLongMiss(a, b, target, replacement);
    }
  }

  /** A string shorter than the target is left as it is. */
  lemma ReplaceShort(a: string, target: string, replacement: string)
    requires |a| < |target|
    ensures Replace(a, target, replacement) == a
  {
  }

  lemma ReplaceShortMiss(a: string, b: string, target: string, replacement: string)
    requires |target| > 0 && 0 < |a| < |target|
    requires !OccursAt(a + b, target, 0)
    requires Replace(a[1..] + b, target, replacement) == a[1..] + Replace(b, target, replacement)
    ensures Replace(a + b, target, replacement) == a + Replace(b, target, replacement)
  {
    var s := a + b;
    assert s[1..] == a[1..] + b;
    if |s| >= |target| {
      assert Replace(s, target, replacement) == [s[0]] + Replace(s[1..], target, replacement);
      assert [a[0]] + a[1..] == a;
    } else {
      assert Replace(b, target, replacement) == b;
    }
  }

  lemma ReplaceLongMiss(a: string, b: string, target: string, replacement: string)
    requires |target| > 0 && |a| >= |target| && a[..|target|] != target
    requires Replace(a[1..] + b, target, replacement)
             == Replace(a[1..], target, replacement) + Replace(b, target, replacement)
    ensures Replace(a + b, target, replacement)
            == Replace(a, target, replacement) + Replace(b, target, replacement)
  {
    var s := a + b;
    assert s[1..] == a[1..] + b;
    assert s[..|target|] == a[..|target|];
    assert Replace(s, target, replacement) == [s[0]] + Replace(s[1..], target, replacement);
    assert Replace(a, target, replacement) == [a[0]] + Replace(a[1..], target, replacement);
  }

  /** The step of ReplaceAppend where a begins with the target. */
  lemma ReplaceAppendHit(a: string, b: string, target: string, replacement: string)
    requires |target| > 0 && |a| >= |target| && a[..|target|] == target
    requires Replace(a[|target|..] + b, target, replacement)
             == Replace(a[|target|..], target, replacement) + Replace(b, target, replacement)
    ensures Replace(a + b, target, replacement)
            == Replace(a, target, replacement) + Replace(b, target, replacement)
  {
    var s := a + b;
    assert s[..|target|] == target;
    assert s[|target|..] == a[|target|..] + b;
    assert Replace(s, target, replacement) == replacement + Replace(s[|target|..], target, replacement);
  }

  /** Deleting every occurrence of one character leaves exactly the other
      characters of s. */
  lemma {:induction false} ReplaceDeletesChar(s: string, c: char)
    ensures forall x :: x in Replace(s, [c], "") <==> x in s && x != c
    decreases |s|
  {
    if |s| >= 1 {
      ReplaceDeletesChar(s[1..], c);
      assert s == [s[0]] + s[1..];
    }
  }

  /** The value of a string of decimal digits. */
  function DecimalValue(s: string): nat
    requires AllDigits(s)
  {
    if s == [] then 0
    else 10 * DecimalValue(s[..|s| - 1]) + (s[|s| - 1] as int - '0' as int)
  }
}
