/** What parse_header_fields of core/metadata_parser.py reads from particular
    header lines. Its regex looks ahead for the next field with `\n+\s*` before
    the key, so an indented `key:` line ends the value before it, yet a field
    itself must start at the beginning of a line. */
module HeaderFields {
  import opened Wrappers
  import opened Text
  import opened Dict
  import opened MetadataParser
  import opened MetadataRoundTrip

  /** A run of whitespace before a non-space character is skipped whole. */
  lemma {:induction false} SpaceRunLenOf(ind: string, x: string)
    requires AllSpace(ind)
    requires x == [] || !IsSpace(x[0])
    ensures SpaceRunLen(ind + x) == |ind|
    decreases |ind|
  {
    if ind != [] {
      assert (ind + x)[1..] == ind[1..] + x;
      assert AllSpace(ind[1..]) by {
        forall i | 0 <= i < |ind[1..]| ensures IsSpace(ind[1..][i]) {
          assert ind[1..][i] == ind[i + 1];
        }
      }
      SpaceRunLenOf(ind[1..], x);
    } else {
      assert ind + x == x;
    }
  }

  /** A line whose first non-space character starts a key is not a comment. */
  lemma KeyLineNotComment(line: string, ind: string, k: string, x: string)
    requires AllSpace(ind) && IsKey(k) && line == ind + k + x
    ensures !StartsWith(Strip(line), "#")
  {
    var s := k + x;
    assert s[0] == k[0];
    assert line == ind + s;
    TrimLeftPadded(ind, s);
    var r := TrimRight(s);
    assert Strip(line) == r && r == s[..|r|];
    assert IsKeyChar(k[0]);
    if |r| >= 1 {
      assert r[..1][0] == r[0] == k[0] != '#';
    }
  }

  /** A field line, possibly indented, holds no line break. */
  lemma KeyLineNoNewline(ind: string, k: string, v: string)
    requires NoNewline(ind) && IsKey(k) && NoNewline(v)
    ensures NoNewline(ind + k + ":" + v)
  {
    var u := ind + k + ":" + v;
    forall i | 0 <= i < |u| ensures u[i] != '\n' {
      if i < |ind| {
        assert u[i] == ind[i];
      } else if i < |ind| + |k| {
        assert u[i] == k[i - |ind|];
      } else if i > |ind| + |k| {
        assert u[i] == v[i - |ind| - |k| - 1];
      }
    }
  }

  /** The text has no line break before index n. */
  lemma NoBreakBefore(a: string, b: string)
    requires NoNewline(a)
    ensures NoSepBefore(a + "\n" + b, "\n", |a|)
  {
    var s := a + "\n" + b;
    forall i | 0 <= i < |a| && i < |s|
      ensures !StartsWith(s[i..], "\n")
    {
      assert s[i..][0] == a[i];
    }
  }

  /** Two lines without line breaks, joined by one, split back into them. */
  lemma TwoLinesSplit(l1: string, u2: string)
    requires NoNewline(l1) && NoNewline(u2) && u2 != []
    ensures SplitLines(l1 + "\n" + u2) == [l1, u2]
  {
    var t := l1 + "\n" + u2;
    NoBreakBefore(l1, u2);
    SplitOnFirst(l1, "\n", u2);
    SplitNoNewline(u2);
    assert t[|t| - 1] == u2[|u2| - 1];
  }

  /** A line that is not a comment passes the comment filter, ahead of
      whatever the filter keeps of the lines after it. */
  lemma NonCommentCons(x: string, rest: seq<string>)
    requires !StartsWith(Strip(x), "#")
    ensures NonCommentLines([x] + rest) == [x] + NonCommentLines(rest)
  {
    var ls := [x] + rest;
    assert ls[0] == x && ls[1..] == rest;
  }

  /** Two lines, neither a comment, both pass the comment filter. */
  lemma NonCommentTwo(l1: string, u2: string)
    requires !StartsWith(Strip(l1), "#") && !StartsWith(Strip(u2), "#")
    ensures NonCommentLines([l1, u2]) == [l1, u2]
  {
    assert [l1, u2] == [l1] + [u2] && [u2] == [u2] + [];
    NonCommentCons(l1, [u2]);
    NonCommentCons(u2, []);
  }

  /** Two lines joined with a line break. */
  lemma JoinTwo(l1: string, u2: string)
    ensures Join([l1, u2], "\n") == l1 + "\n" + u2
  {
    assert [l1, u2][1..] == [u2];
  }

  /** Two lines, neither a comment, are the text the header regex runs over
      as they stand. */
  lemma TwoLinesKept(l1: string, u2: string)
    requires SplitLines(l1 + "\n" + u2) == [l1, u2]
    requires !StartsWith(Strip(l1), "#") && !StartsWith(Strip(u2), "#")
    ensures HeaderScanText(l1 + "\n" + u2) == l1 + "\n" + u2
  {
    NonCommentTwo(l1, u2);
    JoinTwo(l1, u2);
  }

  /** A line that starts with whitespace holds no field. */
  lemma IndentedLineNoField(u: string)
    requires u != [] && IsSpace(u[0]) && NoNewline(u)
    ensures ScanFields(u, true) == []
  {
    assert KeyRunLen(u) == 0;
    FirstLineNone(u, FieldStart);
  }

  /** The header regex's lookahead sees the next field at a line break
      followed by an indented key. */
  lemma IndentedKeyBreak(ind: string, k2: string, v2: string)
    requires AllSpace(ind) && IsKey(k2)
    ensures HeaderFieldBreak("\n" + ind + k2 + ":" + v2)
  {
    var w := "\n" + ind + k2 + ":" + v2;
    assert w[1..] == ind + (k2 + ":" + v2);
    SpaceRunLenOf(ind, k2 + ":" + v2);
    KeyColonOf(k2, v2);
    assert w[1 + |ind|..] == k2 + ":" + v2;
  }

  /** The value of a one-line field ends at the line break after it when the
      next line starts with a possibly indented key. */
  lemma OneLineValueEnd(v: string, w: string)
    requires NoNewline(v) && HeaderFieldBreak(w)
    ensures ValueEnd(v + w, true, 0) == |v|
  {
    var rest := v + w;
    forall j | 0 <= j < |v|
      ensures !FieldBreak(rest[j..], true)
    {
      assert rest[j..][0] == v[j];
    }
    assert rest[|v|..] == w;
    ValueEndIs(rest, true, |v|);
  }

  /** A match at a key and its colon is the value part that follows them. */
  lemma FieldMatchKey(k: string, rest: string)
    requires IsKey(k)
    ensures KeyColon(k + ":" + rest).Some?
    ensures FieldMatch(k + ":" + rest, true) == FieldValue(Lower(k), rest, true)
  {
    var t := k + ":" + rest;
    KeyColonOf(k, rest);
    assert t[..|k|] == k && t[|k| + 1..] == rest;
  }

  /** A one-line value followed by a line break and a possibly indented key
      is that line, and what follows is the text after the line break. */
  lemma FieldValueLine(key: string, v: string, w: string)
    requires NoNewline(v) && HeaderFieldBreak(w)
    ensures FieldValue(key, v + w, true) == (Entry(key, CleanValue(v)), Some(w[1..]))
  {
    var rest := v + w;
    OneLineValueEnd(v, w);
    assert rest[..|v|] == v && rest[|v| + 1..] == w[1..];
  }

  /** A one-line field followed by a line break and a possibly indented key
      matches as that field, and the scan resumes after the line break. */
  lemma FieldMatchLine(k: string, v: string, w: string)
    requires IsKey(k) && NoNewline(v) && HeaderFieldBreak(w)
    ensures KeyColon(k + ":" + v + w).Some?
    ensures FieldMatch(k + ":" + v + w, true) == (Entry(Lower(k), CleanValue(v)), Some(w[1..]))
  {
    assert k + ":" + v + w == k + ":" + (v + w);
    FieldMatchKey(k, v + w);
    FieldValueLine(Lower(k), v, w);
  }

  /** A text that starts with a field is scanned from its first character. */
  lemma ScanFieldsFirst(t: string)
    requires KeyColon(t).Some?
    ensures var m := FieldMatch(t, true);
      ScanFields(t, true) == [m.0] + match m.1 case None => [] case Some(next) => ScanFields(next, true)
  {
    assert Starts(t, FieldStart) && t[0..] == t;
  }

  /** A field line at the start of the text is the first match; the scan
      goes on after its value. */
  lemma FieldLineFirst(k: string, v: string, w: string)
    requires IsKey(k) && NoNewline(v) && HeaderFieldBreak(w)
    ensures ScanFields(k + ":" + v + w, true) == [Entry(Lower(k), CleanValue(v))] + ScanFields(w[1..], true)
  {
    FieldMatchLine(k, v, w);
    ScanFieldsFirst(k + ":" + v + w);
  }

  lemma TwoLinesShape(k: string, v: string, ind: string, k2: string, v2: string)
    ensures var w := "\n" + ind + k2 + ":" + v2;
      && k + ":" + v + "\n" + ind + k2 + ":" + v2 == (k + ":" + v) + "\n" + (ind + k2 + ":" + v2)
      && k + ":" + v + "\n" + ind + k2 + ":" + v2 == k + ":" + v + w
      && w[1..] == ind + k2 + ":" + v2
  {
  }

  /** A field line, possibly indented, is one line and not a comment. */
  lemma FieldLineFacts(line: string, ind: string, k: string, v: string)
    requires AllSpace(ind) && NoNewline(ind) && IsKey(k) && NoNewline(v)
    requires line == ind + k + ":" + v
    ensures NoNewline(line) && !StartsWith(Strip(line), "#")
  {
    KeyLineNoNewline(ind, k, v);
    KeyLineNotComment(line, ind, k, ":" + v);
  }

  /** Two lines, one line each and neither a comment, are kept whole by the
      comment filter. */
  lemma TwoLinesText(l1: string, u2: string)
    requires NoNewline(l1) && !StartsWith(Strip(l1), "#")
    requires u2 != [] && NoNewline(u2) && !StartsWith(Strip(u2), "#")
    ensures HeaderScanText(l1 + "\n" + u2) == l1 + "\n" + u2
  {
    TwoLinesSplit(l1, u2);
    TwoLinesKept(l1, u2);
  }

  /** The header regex finds only the first field in those two lines. */
  lemma TwoLinesScan(k: string, v: string, ind: string, k2: string, v2: string)
    requires IsKey(k) && NoNewline(v)
    requires ind != [] && AllSpace(ind) && NoNewline(ind)
    requires IsKey(k2) && NoNewline(v2)
    ensures ScanFields(k + ":" + v + "\n" + ind + k2 + ":" + v2, true) == [Entry(Lower(k), CleanValue(v))]
  {
    var u2 := ind + k2 + ":" + v2;
    TwoLinesShape(k, v, ind, k2, v2);
    KeyLineNoNewline(ind, k2, v2);
    IndentedKeyBreak(ind, k2, v2);
    FieldLineFirst(k, v, "\n" + ind + k2 + ":" + v2);
    assert u2[0] == ind[0];
    IndentedLineNoField(u2);
  }

  /** Text kept whole by the comment filter, holding one field, parses to
      that field alone. */
  lemma OneFieldParse(t: string, e: Entry)
    requires HeaderScanText(t) == t && ScanFields(t, true) == [e]
    ensures ParseHeaderFields(t) == [e]
  {
    FromPairsDistinct([e]);
  }

  /** An indented `key: value` line after a one-line field is dropped: the
      field's value ends before it, and it is not read as a field of its own,
      so the header has only the first field. */
  lemma IndentedKeyDropped(k: string, v: string, ind: string, k2: string, v2: string)
    requires IsKey(k) && NoNewline(v)
    requires ind != [] && AllSpace(ind) && NoNewline(ind)
    requires IsKey(k2) && NoNewline(v2)
    ensures ParseHeaderFields(k + ":" + v + "\n" + ind + k2 + ":" + v2) == [Entry(Lower(k), CleanValue(v))]
  {
    var l1, u2 := k + ":" + v, ind + k2 + ":" + v2;
    FieldLineFacts(l1, [], k, v);
    FieldLineFacts(u2, ind, k2, v2);
    TwoLinesText(l1, u2);
    TwoLinesShape(k, v, ind, k2, v2);
    TwoLinesScan(k, v, ind, k2, v2);
    OneFieldParse(k + ":" + v + "\n" + ind + k2 + ":" + v2, Entry(Lower(k), CleanValue(v)));
  }
}
