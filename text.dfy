/** The string operations the metadata tool borrows from Python's str type:
    strip(), lower() on ASCII keys, split(sep), splitlines(), '\n'.join(),
    replace('\n', '\n  ') and the `in` substring test. */
module Text {

  /** The characters str.strip() removes and the regex class \s matches. */
  predicate IsSpace(c: char) {
    || c == ' '
    || ('\t' <= c <= '\r')
    || ('\U{001c}' <= c <= '\U{001f}')
    || c == '\U{0085}' || c == '\U{00a0}' || c == '\U{1680}'
    || ('\U{2000}' <= c <= '\U{200a}')
    || c == '\U{2028}' || c == '\U{2029}' || c == '\U{202f}' || c == '\U{205f}' || c == '\U{3000}'
  }

  predicate AllSpace(s: string) {
    forall i :: 0 <= i < |s| ==> IsSpace(s[i])
  }

  /** Neither end of s is whitespace: str.strip() leaves s alone. */
  predicate Trimmed(s: string) {
    s == [] || (!IsSpace(s[0]) && !IsSpace(s[|s| - 1]))
  }

  /** str.lstrip() */
  function TrimLeft(s: string): (r: string)
    ensures |r| <= |s| && r == s[|s| - |r|..]
    ensures AllSpace(s[..|s| - |r|])
    ensures r == [] || !IsSpace(r[0])
  {
    if s != [] && IsSpace(s[0]) then TrimLeft(s[1..]) else s
  }

  /** str.rstrip() */
  function TrimRight(s: string): (r: string)
    ensures |r| <= |s| && r == s[..|r|]
    ensures AllSpace(s[|r|..])
    ensures r == [] || !IsSpace(r[|r| - 1])
  {
    if s != [] && IsSpace(s[|s| - 1]) then
      var r := TrimRight(s[..|s| - 1]);
      assert s[|r|..] == s[..|s| - 1][|r|..] + [s[|s| - 1]];
      r
    else s
  }

  /** str.strip(): the longest infix of s with whitespace on neither end. */
  function Strip(s: string): (r: string)
    ensures Trimmed(r)
    ensures |r| <= |s|
  {
    TrimRight(TrimLeft(s))
  }

  lemma {:induction false} TrimLeftPadded(a: string, c: string)
    requires AllSpace(a)
    requires c == [] || !IsSpace(c[0])
    ensures TrimLeft(a + c) == c
  {
    if a != [] {
      assert (a + c)[1..] == a[1..] + c;
      TrimLeftPadded(a[1..], c);
    }
  }

  lemma {:induction false} TrimRightPadded(c: string, b: string)
    requires AllSpace(b)
    requires c == [] || !IsSpace(c[|c| - 1])
    ensures TrimRight(c + b) == c
  {
    if b != [] {
      assert (c + b)[..|c + b| - 1] == c + b[..|b| - 1];
      TrimRightPadded(c, b[..|b| - 1]);
    }
  }

  /** Stripping whitespace padding off a trimmed text gives that text back. */
  lemma StripPadded(a: string, c: string, b: string)
    requires AllSpace(a) && AllSpace(b) && Trimmed(c)
    ensures Strip(a + c + b) == c
  {
    if c == [] {
      assert a + c + b == a + b;
      assert AllSpace(a + b);
      TrimLeftPadded(a + b, []);
      assert a + b + [] == a + b;
      TrimRightPadded([], []);
    } else {
      assert a + c + b == a + (c + b);
      TrimLeftPadded(a, c + b);
      TrimRightPadded(c, b);
    }
  }

  /** A suffix l of s and a prefix r of l cut s into three parts. */
  lemma ThreeParts(s: string, l: string, r: string)
    requires |l| <= |s| && l == s[|s| - |l|..]
    requires |r| <= |l| && r == l[..|r|]
    ensures s == s[..|s| - |l|] + r + l[|r|..]
  {
    var k := |s| - |l|;
    assert s == s[..k] + s[k..];
    assert l == l[..|r|] + l[|r|..];
  }

  /** A text is its stripped self padded on both sides with whitespace. */
  lemma StripSplit(s: string) returns (a: string, b: string)
    ensures AllSpace(a) && AllSpace(b) && s == a + Strip(s) + b
  {
    var l := TrimLeft(s);
    var r := TrimRight(l);
    ThreeParts(s, l, r);
    a := s[..|s| - |l|];
    b := l[|r|..];
  }

  /** Whitespace added at the end does not change what strip() returns. */
  lemma StripPaddedRight(s: string, b: string)
    requires AllSpace(b)
    ensures Strip(s + b) == Strip(s)
  {
    var a, b0 := StripSplit(s);
    assert AllSpace(b0 + b);
    assert s + b == a + Strip(s) + (b0 + b);
    StripPadded(a, Strip(s), b0 + b);
  }

  lemma StripTrimmed(c: string)
    requires Trimmed(c)
    ensures Strip(c) == c
  {
    StripPadded([], c, []);
    assert [] + c + [] == c;
  }

  /** str.lower() restricted to ASCII letters. */
  function LowerChar(c: char): char {
    if 'A' <= c <= 'Z' then (c as int + 32) as char else c
  }

  function Lower(s: string): (r: string)
    ensures |r| == |s|
  {
    seq(|s|, i requires 0 <= i < |s| => LowerChar(s[i]))
  }

  predicate IsLower(s: string) {
    forall i :: 0 <= i < |s| ==> !('A' <= s[i] <= 'Z')
  }

  predicate StartsWith(s: string, p: string) {
    |p| <= |s| && s[..|p|] == p
  }

  /** Python's `k in s`. */
  predicate Contains(s: string, k: string)
    decreases |s|
  {
    StartsWith(s, k) || (s != [] && Contains(s[1..], k))
  }

  /** k occurs in s starting at index i. */
  predicate OccursAt(s: string, k: string, i: int) {
    0 <= i <= |s| - |k| && s[i..i + |k|] == k
  }

  /** The `in` test holds exactly when k occurs somewhere in s. */
  lemma {:induction false} ContainsAt(s: string, k: string)
    ensures Contains(s, k) <==> exists i :: OccursAt(s, k, i)
  {
    if StartsWith(s, k) {
      assert OccursAt(s, k, 0);
    } else if s == [] {
    } else {
      ContainsAt(s[1..], k);
      if Contains(s[1..], k) {
        var i :| OccursAt(s[1..], k, i);
        assert s[1..][i..i + |k|] == s[i + 1..i + 1 + |k|];
        assert OccursAt(s, k, i + 1);
      }
      if i :| OccursAt(s, k, i) {
        assert i != 0;
        assert s[1..][i - 1..i - 1 + |k|] == s[i..i + |k|];
        assert OccursAt(s[1..], k, i - 1);
      }
    }
  }

  /** str.split(sep): cut at every occurrence of sep, scanning left to right. */
  function SplitOn(s: string, sep: string): (r: seq<string>)
    requires sep != []
    ensures |r| >= 1
    decreases |s|
  {
    if |s| < |sep| then [s]
    else if s[..|sep|] == sep then [[]] + SplitOn(s[|sep|..], sep)
    else
      var rest := SplitOn(s[1..], sep);
      [[s[0]] + rest[0]] + rest[1..]
  }

  /** sep.join(parts) */
  function Join(parts: seq<string>, sep: string): string {
    if |parts| == 0 then []
    else if |parts| == 1 then parts[0]
    else parts[0] + sep + Join(parts[1..], sep)
  }

  lemma {:induction false} JoinSplitOn(s: string, sep: string)
    requires sep != []
    ensures Join(SplitOn(s, sep), sep) == s
  {
    if |s| < |sep| {
    } else if s[..|sep|] == sep {
      JoinSplitOn(s[|sep|..], sep);
      JoinEmptyHead(SplitOn(s[|sep|..], sep), sep);
      assert s == s[..|sep|] + s[|sep|..];
    } else {
      JoinSplitOn(s[1..], sep);
      JoinConsHead(s[0], SplitOn(s[1..], sep), sep);
      assert s == [s[0]] + s[1..];
    }
  }

  /** Joining after an empty first part puts sep in front. */
  lemma JoinEmptyHead(rest: seq<string>, sep: string)
    requires rest != []
    ensures Join([[]] + rest, sep) == sep + Join(rest, sep)
  {
    assert ([[]] + rest)[1..] == rest;
  }

  /** Joining after a character is added to the first part adds it in front. */
  lemma JoinConsHead(c: char, rest: seq<string>, sep: string)
    requires rest != []
    ensures Join([[c] + rest[0]] + rest[1..], sep) == [c] + Join(rest, sep)
  {
    var r := [[c] + rest[0]] + rest[1..];
    if |rest| > 1 {
      assert r[1..] == rest[1..];
    }
  }

  lemma {:induction false} JoinSnoc(parts: seq<string>, x: string, sep: string)
    requires parts != []
    ensures Join(parts + [x], sep) == Join(parts, sep) + sep + x
  {
    if |parts| == 1 {
      assert parts + [x] == [parts[0], x];
    } else {
      assert (parts + [x])[1..] == parts[1..] + [x];
      JoinSnoc(parts[1..], x, sep);
    }
  }

  /** No occurrence of sep begins at an index below n. */
  predicate NoSepBefore(s: string, sep: string, n: int) {
    forall i :: 0 <= i < n && i < |s| ==> !StartsWith(s[i..], sep)
  }

  /** Splitting text whose first occurrence of sep comes right after the piece a. */
  lemma {:induction false} SplitOnFirst(a: string, sep: string, b: string)
    requires sep != []
    requires NoSepBefore(a + sep + b, sep, |a|)
    ensures SplitOn(a + sep + b, sep) == [a] + SplitOn(b, sep)
  {
    var s := a + sep + b;
    if a == [] {
      assert s[..|sep|] == sep && s[|sep|..] == b;
    } else {
      assert !StartsWith(s[0..], sep);
      assert s[0..] == s;
      assert s[1..] == a[1..] + sep + b;
      forall i | 0 <= i < |a[1..]| && i < |s[1..]|
        ensures !StartsWith(s[1..][i..], sep)
      {
        assert s[1..][i..] == s[i + 1..];
      }
      SplitOnFirst(a[1..], sep, b);
      assert [a[0]] + a[1..] == a;
    }
  }

  /** Text with no occurrence of sep is split into itself alone. */
  lemma {:induction false} SplitOnNone(s: string, sep: string)
    requires sep != []
    requires NoSepBefore(s, sep, |s|)
    ensures SplitOn(s, sep) == [s]
  {
    if |s| >= |sep| {
      assert s[0..] == s;
      forall i | 0 <= i < |s[1..]|
        ensures !StartsWith(s[1..][i..], sep)
      {
        assert s[1..][i..] == s[i + 1..];
      }
      SplitOnNone(s[1..], sep);
      assert [s[0]] + s[1..] == s;
    }
  }

  /** Every line stripped: [l.strip() for l in lines]. */
  function StripLines(lines: seq<string>): (r: seq<string>)
    ensures |r| == |lines|
    ensures forall i :: 0 <= i < |lines| ==> r[i] == Strip(lines[i])
  {
    if lines == [] then [] else [Strip(lines[0])] + StripLines(lines[1..])
  }

  /** str.splitlines() for text whose only line break is '\n'. */
  function SplitLines(s: string): seq<string> {
    if s == [] then []
    else
      var parts := SplitOn(s, "\n");
      if s[|s| - 1] == '\n' then parts[..|parts| - 1] else parts
  }

  /** str.replace('\n', '\n  '): every continuation line indented by two spaces. */
  function Indent(s: string): string {
    if s == [] then []
    else (if s[0] == '\n' then "\n  " else [s[0]]) + Indent(s[1..])
  }
}
