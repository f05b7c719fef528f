/** The JavaScript string operations the board scripts rely on, over `seq<char>`.
    Case mapping is restricted to ASCII letters; every other character maps to itself. */
module Text {

  /** The characters `String.prototype.trim` strips and the regular-expression class `\s`
      matches: the ECMAScript WhiteSpace and LineTerminator code points. */
  predicate IsWhitespace(c: char) {
    c == ' ' || c == '\t' || c == '\n' || c == '\r' || c == '\U{000B}' || c == '\U{000C}'
    || c == '\U{00A0}' || c == '\U{1680}' || ('\U{2000}' <= c <= '\U{200A}')
    || c == '\U{2028}' || c == '\U{2029}' || c == '\U{202F}' || c == '\U{205F}'
    || c == '\U{3000}' || c == '\U{FEFF}'
  }

  predicate IsAsciiUpper(c: char) { 'A' <= c <= 'Z' }
  predicate IsAsciiLower(c: char) { 'a' <= c <= 'z' }
  predicate IsAsciiLetter(c: char) { IsAsciiUpper(c) || IsAsciiLower(c) }
  predicate IsDigit(c: char) { '0' <= c <= '9' }

  function Upper(c: char): (r: char)
    ensures IsAsciiLower(c) ==> IsAsciiUpper(r)
    ensures !IsAsciiLower(c) ==> r == c
  {
    if IsAsciiLower(c) then (c as int - 32) as char else c
  }

  function Lower(c: char): (r: char)
    ensures IsAsciiUpper(c) ==> IsAsciiLower(r)
    ensures !IsAsciiUpper(c) ==> r == c
  {
    if IsAsciiUpper(c) then (c as int + 32) as char else c
  }

  /** `toLowerCase`, character by character. */
  function LowerStr(s: string): (r: string)
    ensures |r| == |s|
    ensures forall i :: 0 <= i < |s| ==> r[i] == Lower(s[i])
  {
    if s == [] then [] else [Lower(s[0])] + LowerStr(s[1..])
  }

  /** Lower-casing twice is lower-casing once. */
  lemma LowerStrIdempotent(s: string)
    ensures LowerStr(LowerStr(s)) == LowerStr(s)
  {
    var r := LowerStr(s);
    assert forall i :: 0 <= i < |s| ==> Lower(r[i]) == r[i];
  }

  /** The position of the first non-whitespace character at or after i (or the end). */
  function StartOf(s: string, i: nat): (k: nat)
    requires i <= |s|
    ensures i <= k <= |s|
    ensures forall j :: i <= j < k ==> IsWhitespace(s[j])
    ensures k < |s| ==> !IsWhitespace(s[k])
    decreases |s| - i
  {
    if i < |s| && IsWhitespace(s[i]) then StartOf(s, i + 1) else i
  }

  /** The end of what is left of `s[lo..hi]` after its trailing whitespace is cut. */
  function EndOf(s: string, lo: nat, hi: nat): (k: nat)
    requires lo <= hi <= |s|
    ensures lo <= k <= hi
    ensures forall j :: k <= j < hi ==> IsWhitespace(s[j])
    ensures k > lo ==> !IsWhitespace(s[k - 1])
    decreases hi
  {
    if hi > lo && IsWhitespace(s[hi - 1]) then EndOf(s, lo, hi - 1) else hi
  }

  /** `trim`: what is left after cutting the leading and the trailing whitespace; it is a
      slice of `s`, it neither starts nor ends with whitespace, and everything cut off on
      either side is whitespace. */
  function Trim(s: string): (r: string)
    ensures var i := StartOf(s, 0);
      && i + |r| <= |s| && r == s[i..i + |r|]
      && (forall j :: 0 <= j < i ==> IsWhitespace(s[j]))
      && (forall j :: i + |r| <= j < |s| ==> IsWhitespace(s[j]))
    ensures r != [] ==> !IsWhitespace(r[0]) && !IsWhitespace(r[|r| - 1])
  {
    var i := StartOf(s, 0);
    s[i..EndOf(s, i, |s|)]
  }

  /** An all-whitespace string trims to the empty string and only such a string does. */
  lemma TrimEmpty(s: string)
    ensures Trim(s) == [] <==> forall j :: 0 <= j < |s| ==> IsWhitespace(s[j])
  {
    var r := Trim(s);
    if r != [] {
      assert s[StartOf(s, 0)] == r[0];
    }
  }

  /** Trimming a trimmed string changes nothing. */
  lemma TrimIdempotent(s: string)
    ensures Trim(Trim(s)) == Trim(s)
  {
    var r := Trim(s);
    if r != [] {
      assert StartOf(r, 0) == 0;
      assert EndOf(r, 0, |r|) == |r|;
      assert r[0..|r|] == r;
    }
  }

  /** `str.split(' ')`: the pieces between single spaces, empty pieces included. */
  function Split(s: string): (words: seq<string>)
    ensures |words| >= 1
    ensures forall k :: 0 <= k < |words| ==> ' ' !in words[k]
    decreases |s|
  {
    if ' ' !in s then [s]
    else
      var k := FirstIndex(s, ' ');
      [s[..k]] + Split(s[k + 1..])
  }

  /** The position of the first occurrence of `c`, as `indexOf` finds it. */
  function FirstIndex(s: string, c: char): (k: nat)
    requires c in s
    ensures k < |s| && s[k] == c && c !in s[..k]
  {
    if s[0] == c then 0 else 1 + FirstIndex(s[1..], c)
  }

  /** `s.includes(sub)`: `sub` starts at some position of `s`. */
  predicate Includes(s: string, sub: string)
    decreases |s|
  {
    sub <= s || (s != [] && Includes(s[1..], sub))
  }

  /** `sub` occurs in `s` at position i. */
  predicate OccursAt(s: string, sub: string, i: nat) {
    i + |sub| <= |s| && sub == s[i..i + |sub|]
  }

  /** `includes` finds `sub` exactly when it occurs at some position of `s`. */
  lemma {:induction false} IncludesAt(s: string, sub: string)
    ensures Includes(s, sub) <==> exists i: nat :: OccursAt(s, sub, i)
    decreases |s|
  {
    if s != [] {
      IncludesAt(s[1..], sub);
      if exists i: nat :: OccursAt(s, sub, i) {
        var i: nat :| OccursAt(s, sub, i);
        if i > 0 {
          OccursShift(s, sub, i - 1);
        }
      }
      if exists i: nat :: OccursAt(s[1..], sub, i) {
        var i: nat :| OccursAt(s[1..], sub, i);
        OccursShift(s, sub, i);
      }
    }
    if sub <= s {
      assert OccursAt(s, sub, 0);
    }
  }

  /** An occurrence one position further into `s` is an occurrence in its tail. */
  lemma OccursShift(s: string, sub: string, i: nat)
    requires s != []
    ensures OccursAt(s, sub, i + 1) <==> OccursAt(s[1..], sub, i)
  {
    if i + |sub| <= |s[1..]| {
      assert s[1..][i..i + |sub|] == s[i + 1..i + 1 + |sub|];
    }
  }

  /** The number of occurrences of `c` in `s`. */
  function Occurrences(s: string, c: char): (n: nat)
    ensures n <= |s|
    ensures n == 0 <==> c !in s
  {
    if s == [] then 0 else (if s[0] == c then 1 else 0) + Occurrences(s[1..], c)
  }

  lemma {:induction false} FirstIndexAt(s: string, c: char, j: nat)
    requires j < |s| && s[j] == c && c !in s[..j]
    ensures FirstIndex(s, c) == j
  {
    if j > 0 {
      assert s[0] in s[..j];
      assert s[1..][..j - 1] == s[1..j];
      assert s[1..j] <= s[..j][1..];
      FirstIndexAt(s[1..], c, j - 1);
    }
  }

  lemma {:induction false} OccurrencesAppend(a: string, b: string, c: char)
    ensures Occurrences(a + b, c) == Occurrences(a, c) + Occurrences(b, c)
  {
    if a == [] {
      assert a + b == b;
    } else {
      assert (a + b)[0] == a[0];
      assert (a + b)[1..] == a[1..] + b;
      OccurrencesAppend(a[1..], b, c);
    }
  }

  /** `split(' ')` yields one more piece than there are spaces. */
  lemma {:induction false} SplitCount(s: string)
    ensures |Split(s)| == Occurrences(s, ' ') + 1
    decreases |s|
  {
    if ' ' in s {
      var k := FirstIndex(s, ' ');
      var rest := s[k + 1..];
      assert s == s[..k] + ([' '] + rest);
      OccurrencesAppend(s[..k], [' '] + rest, ' ');
      OccurrencesAppend([' '], rest, ' ');
      assert Occurrences([' '], ' ') == 1;
      SplitCount(rest);
    }
  }

  /** Split cuts at the first space. */
  lemma SplitAt(s: string, k: nat)
    requires k < |s| && s[k] == ' ' && ' ' !in s[..k]
    ensures Split(s) == [s[..k]] + Split(s[k + 1..])
  {
    FirstIndexAt(s, ' ', k);
  }

  /** Splitting at a joining space splits both halves: `(a + " " + b).split(' ')` is
      `a.split(' ')` followed by `b.split(' ')`. */
  lemma {:induction false} SplitJoin(a: string, b: string)
    ensures Split(a + [' '] + b) == Split(a) + Split(b)
    decreases |a|
  {
    if ' ' in a {
      var j := FirstIndex(a, ' ');
      SplitJoin(a[j + 1..], b);
      SplitJoinCut(a, b, j);
    } else {
      SplitJoinEnd(a, b);
    }
  }

  /** Without a space in `a`, the joining space is the first cut. */
  lemma SplitJoinEnd(a: string, b: string)
    requires ' ' !in a
    ensures Split(a + [' '] + b) == [a] + Split(b) == Split(a) + Split(b)
  {
    var s := a + [' '] + b;
    assert s[..|a|] == a;
    assert s[|a| + 1..] == b;
    SplitAt(s, |a|);
  }

  /** A space inside `a` is the first cut of `a + " " + b` too. */
  lemma SplitJoinCut(a: string, b: string, j: nat)
    requires j < |a| && a[j] == ' ' && ' ' !in a[..j]
    requires Split(a[j + 1..] + [' '] + b) == Split(a[j + 1..]) + Split(b)
    ensures Split(a + [' '] + b) == Split(a) + Split(b)
  {
    CutAround(a, b, j);
    SplitJoinEnd(a[..j], a[j + 1..]);
    SplitJoinEnd(a[..j], a[j + 1..] + [' '] + b);
    ConcatAssoc([a[..j]], Split(a[j + 1..]), Split(b));
  }

  /** `a` is its part before position j, the character there, and the rest. */
  lemma CutAround(a: string, b: string, j: nat)
    requires j < |a|
    ensures a == a[..j] + [a[j]] + a[j + 1..]
    ensures a + [' '] + b == a[..j] + [a[j]] + (a[j + 1..] + [' '] + b)
  {
  }

  lemma ConcatAssoc<T>(x: seq<T>, y: seq<T>, z: seq<T>)
    ensures x + (y + z) == (x + y) + z
  {
  }
}
