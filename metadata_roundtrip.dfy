/** The round trip of core/metadata_parser.py: the text write_metadata writes
    for a header and a list of games parses back, through
    parse_platform_directory, into the same header and the same games (the
    description up to the per-line stripping the parser applies), provided
    the values are ones the line format can carry. */
module MetadataRoundTrip {
  import opened Wrappers
  import opened Text
  import opened Dict
  import opened FileSys
  import opened MetadataFormat
  import opened MetadataParser

  /* ---------------------------------------------------------------------- */
  /* Values the format can carry                                             */
  /* ---------------------------------------------------------------------- */

  predicate NoNewline(s: string) {
    forall i :: 0 <= i < |s| ==> s[i] != '\n'
  }

  /** Every line break of v is followed by a space: continuation lines are
      indented, so none of them can be read as a new `key:` line. */
  predicate Indented(v: string) {
    forall j :: 0 <= j < |v| && v[j] == '\n' ==> j + 1 < |v| && v[j + 1] == ' '
  }

  /** A game the writer and the parser agree on: display name and file name
      present, trimmed and on one line, the file name not wrapped in quotes;
      sort key and developer trimmed and on one line; a description that is
      absent or not whitespace only. */
  predicate Writable(g: Game) {
    && g.game != [] && Trimmed(g.game) && NoNewline(g.game)
    && g.file != [] && Trimmed(g.file) && NoNewline(g.file)
    && !(|g.file| >= 2 && g.file[0] == '"' && g.file[|g.file| - 1] == '"')
    && Trimmed(g.sortBy) && NoNewline(g.sortBy)
    && Trimmed(g.developer) && NoNewline(g.developer)
    && (g.description == [] || Strip(g.description) != [])
  }

  /** A header the parser can give back: no line of it starts with `game` in
      any letter case (such a line could be read as the first game). */
  predicate HeaderOk(header: string) {
    forall q :: 0 <= q && q + 4 <= |header| && LineStart(header, q) ==> Lower(header[q..q + 4]) != "game"
  }

  /** The game as it reads back from the directory dir named name: the
      description stripped line by line, the platform set from the directory. */
  function Reparsed(g: Game, dir: Path, name: string): Game {
    g.(description := CleanValue(g.description), platform := name, platformPath := Some(dir))
  }

  function ReparsedAll(gs: seq<Game>, dir: Path, name: string): (r: seq<Game>)
    ensures |r| == |gs|
  {
    if gs == [] then [] else [Reparsed(gs[0], dir, name)] + ReparsedAll(gs[1..], dir, name)
  }

  /* ---------------------------------------------------------------------- */
  /* Text facts                                                              */
  /* ---------------------------------------------------------------------- */

  lemma LowerIdem(s: string)
    requires IsLower(s)
    ensures Lower(s) == s
  {
  }

  lemma {:induction false} IndentIndented(s: string)
    ensures Indented(Indent(s))
    decreases |s|
  {
    if s != [] {
      IndentIndented(s[1..]);
      var head: string := if s[0] == '\n' then "\n  " else [s[0]];
      var tail := Indent(s[1..]);
      assert Indent(s) == head + tail;
      forall j | 0 <= j < |head + tail| && (head + tail)[j] == '\n'
        ensures j + 1 < |head + tail| && (head + tail)[j + 1] == ' '
      {
        if j >= |head| {
          assert (head + tail)[j] == tail[j - |head|];
        }
      }
    }
  }

  /** Indenting keeps the first and the last character when neither is a
      line break. */
  lemma {:induction false} IndentEnds(s: string)
    requires s != [] && s[0] != '\n' && s[|s| - 1] != '\n'
    ensures Indent(s) != [] && Indent(s)[0] == s[0] && Indent(s)[|Indent(s)| - 1] == s[|s| - 1]
    decreases |s|
  {
    if |s| > 1 {
      IndentLast(s[1..]);
    }
  }

  lemma {:induction false} IndentLast(s: string)
    requires s != [] && s[|s| - 1] != '\n'
    ensures Indent(s) != [] && Indent(s)[|Indent(s)| - 1] == s[|s| - 1]
    decreases |s|
  {
    if |s| > 1 {
      IndentLast(s[1..]);
    }
  }

  lemma TrimmedIndent(s: string)
    requires s != [] && Trimmed(s)
    ensures Indent(s) != [] && Trimmed(Indent(s))
  {
    IndentEnds(s);
  }

  /** Two leading spaces are stripped away with the rest of the padding. */
  lemma StripIndentedLine(x: string)
    ensures Strip("  " + x) == Strip(x)
  {
    TrimLeftSpaces(x);
  }

  lemma TrimLeftSpaces(x: string)
    ensures TrimLeft("  " + x) == TrimLeft(x)
  {
    var s := "  " + x;
    assert s[1..] == " " + x;
    assert TrimLeft(s) == TrimLeft(" " + x);
    assert (" " + x)[1..] == x;
    assert TrimLeft(" " + x) == TrimLeft(x);
  }

  lemma SplitNewline(x: string)
    ensures SplitOn("\n" + x, "\n") == [[]] + SplitOn(x, "\n")
  {
    assert ("\n" + x)[..1] == "\n";
    assert ("\n" + x)[1..] == x;
  }

  lemma SplitOther(c: char, x: string)
    requires c != '\n'
    ensures var rest := SplitOn(x, "\n");
      SplitOn([c] + x, "\n") == [[c] + rest[0]] + rest[1..]
  {
    assert ([c] + x)[..1] != "\n";
    assert ([c] + x)[1..] == x;
  }

  /** The pieces of a split that differ only by two spaces before every
      continuation piece. */
  ghost predicate IndentedPieces(a: seq<string>, b: seq<string>) {
    |a| == |b| && |a| >= 1 && a[0] == b[0] && forall i :: 1 <= i < |a| ==> a[i] == "  " + b[i]
  }

  /** Splitting an indented text gives the pieces of the original, each
      continuation piece with two more leading spaces. */
  lemma {:induction false} SplitIndent(s: string)
    ensures IndentedPieces(SplitOn(Indent(s), "\n"), SplitOn(s, "\n"))
    decreases |s|
  {
    if s != [] {
      SplitIndent(s[1..]);
      if s[0] == '\n' {
        assert s == "\n" + s[1..];
        assert Indent(s) == "\n" + ("  " + Indent(s[1..]));
        BreakPieces(Indent(s[1..]), s[1..]);
      } else {
        assert s == [s[0]] + s[1..];
        SplitOther(s[0], s[1..]);
        assert Indent(s) == [s[0]] + Indent(s[1..]);
        SplitOther(s[0], Indent(s[1..]));
      }
    }
  }

  lemma SplitTwoSpaces(x: string)
    ensures var rest := SplitOn(x, "\n");
      SplitOn("  " + x, "\n") == ["  " + rest[0]] + rest[1..]
  {
    var rest := SplitOn(x, "\n");
    SplitOther(' ', x);
    assert " " + x == [' '] + x;
    var c := SplitOn(" " + x, "\n");
    assert c == [" " + rest[0]] + rest[1..];
    SplitOther(' ', " " + x);
    assert "  " + x == [' '] + (" " + x);
    assert SplitOn("  " + x, "\n") == [[' '] + c[0]] + c[1..];
    assert c[1..] == rest[1..];
    assert [' '] + c[0] == "  " + rest[0];
  }

  lemma ShiftPieces(a: seq<string>, b: seq<string>)
    requires IndentedPieces(a, b)
    ensures IndentedPieces([[]] + (["  " + a[0]] + a[1..]), [[]] + b)
  {
    var a2 := [[]] + (["  " + a[0]] + a[1..]);
    var b2 := [[]] + b;
    forall i | 1 <= i < |a2|
      ensures a2[i] == "  " + b2[i]
    {
      if i > 1 {
        assert a2[i] == a[i - 1] && b2[i] == b[i - 1];
      }
    }
  }

  lemma BreakPieces(x: string, t: string)
    requires IndentedPieces(SplitOn(x, "\n"), SplitOn(t, "\n"))
    ensures IndentedPieces(SplitOn("\n" + ("  " + x), "\n"), SplitOn("\n" + t, "\n"))
  {
    SplitNewline(t);
    SplitNewline("  " + x);
    SplitTwoSpaces(x);
    ShiftPieces(SplitOn(x, "\n"), SplitOn(t, "\n"));
  }

  /* ---------------------------------------------------------------------- */
  /* Field lines                                                             */
  /* ---------------------------------------------------------------------- */

  /** One `key: value` line as the writer emits it. */
  function FieldText(e: Entry): string {
    e.key + ": " + e.value
  }

  /** The field lines of a block joined by line breaks (no final break). */
  function BlockText(es: seq<Entry>): string {
    if es == [] then []
    else if |es| == 1 then FieldText(es[0])
    else FieldText(es[0]) + "\n" + BlockText(es[1..])
  }

  /** Entries the field regex reads back: lowercase keys of key characters,
      values whose continuation lines are indented. */
  predicate GoodEntries(es: seq<Entry>) {
    forall e <- es :: IsKey(e.key) && IsLower(e.key) && Indented(e.value)
  }

  /** The pair the field regex reads from a field line: the text after the
      colon (with its leading space) cleaned. */
  function CleanEntry(e: Entry): Entry {
    Entry(e.key, CleanValue(" " + e.value))
  }

  function Cleaned(es: seq<Entry>): (r: seq<Entry>)
    ensures |r| == |es|
  {
    if es == [] then [] else [CleanEntry(es[0])] + Cleaned(es[1..])
  }

  /** The key-character run stops at the first character outside the class. */
  lemma {:induction false} KeyRunLenOf(k: string, x: string)
    requires IsKey(k) || k == []
    requires x == [] || !IsKeyChar(x[0])
    ensures KeyRunLen(k + x) == |k|
    decreases |k|
  {
    if k != [] {
      assert (k + x)[1..] == k[1..] + x;
      assert k[1..] == [] || IsKey(k[1..]) by {
        forall i | 0 <= i < |k[1..]| ensures IsKeyChar(k[1..][i]) {
          assert k[1..][i] == k[i + 1];
        }
      }
      KeyRunLenOf(k[1..], x);
    } else {
      assert k + x == x;
    }
  }

  lemma KeyColonOf(k: string, x: string)
    requires IsKey(k)
    ensures KeyRunLen(k + ":" + x) == |k| && KeyColon(k + ":" + x) == Some(|k|)
  {
    var u := k + ":" + x;
    assert u == k + (":" + x);
    KeyRunLenOf(k, ":" + x);
    assert u[|k|..] == ":" + x;
  }

  /** The lazy value group ends at m when no field break comes before m and
      m is a field break or the end of the text. */
  lemma ValueEndIs(u: string, header: bool, m: nat)
    requires m <= |u|
    requires forall j :: 0 <= j < m ==> !FieldBreak(u[j..], header)
    requires m < |u| ==> FieldBreak(u[m..], header)
    ensures ValueEnd(u, header, 0) == m
  {
  }

  /** Inside " " + v with v indented, no line break is followed by a key. */
  lemma NoBreakInValue(v: string, tail: string, j: nat)
    requires Indented(v)
    requires j < 1 + |v|
    ensures !FieldBreak((" " + v + tail)[j..], false)
  {
    var u := " " + v + tail;
    if j > 0 && u[j] == '\n' {
      assert v[j - 1] == '\n';
      assert u[j + 1] == ' ';
      assert u[j..][1..] == u[j + 1..];
    }
  }

  /** The value group of a field line ends right after the value. */
  lemma ValueEndOf(v: string, tail: string)
    requires Indented(v)
    requires tail == [] || (tail[0] == '\n' && KeyColon(tail[1..]).Some?)
    ensures ValueEnd(" " + v + tail, false, 0) == 1 + |v|
  {
    var rest := " " + v + tail;
    var m := 1 + |v|;
    forall j | 0 <= j < m
      ensures !FieldBreak(rest[j..], false)
    {
      NoBreakInValue(v, tail, j);
    }
    if tail != [] {
      assert rest[m..] == tail;
    }
    ValueEndIs(rest, false, m);
  }

  lemma FieldTextParts(k: string, v: string, tail: string)
    ensures var u := k + ": " + v + tail;
      && u == k + ":" + (" " + v + tail)
      && u[..|k|] == k
      && u[|k| + 1..] == " " + v + tail
  {
    var u := k + ": " + v + tail;
    assert u == k + (": " + v + tail);
  }

  /** FieldMatch once the key run and the colon are known. */
  lemma FieldMatchIs(u: string, k: nat)
    requires KeyRunLen(u) == k && KeyColon(u) == Some(k)
    ensures FieldMatch(u, false) == FieldValue(Lower(u[..k]), u[k + 1..], false)
  {
  }

  /** The value of a field line followed by the end of the block or by the
      next field line is the line's own value, and the scan resumes at the
      next line. */
  lemma FieldValueOf(key: string, v: string, tail: string)
    requires Indented(v)
    requires tail == [] || (tail[0] == '\n' && KeyColon(tail[1..]).Some?)
    ensures FieldValue(key, " " + v + tail, false)
      == (Entry(key, CleanValue(" " + v)), if tail == [] then None else Some(tail[1..]))
  {
    var rest := " " + v + tail;
    ValueEndOf(v, tail);
    assert rest[..1 + |v|] == " " + v;
    if tail != [] {
      assert rest[1 + |v| + 1..] == tail[1..];
    }
  }

  /** One field line followed by the end of the block or by the next field
      line matches as that field, and the scan resumes at the next line. */
  lemma FieldMatchOf(e: Entry, tail: string)
    requires IsKey(e.key) && IsLower(e.key) && Indented(e.value)
    requires tail == [] || (tail[0] == '\n' && KeyColon(tail[1..]).Some?)
    ensures KeyColon(FieldText(e) + tail).Some?
    ensures FieldMatch(FieldText(e) + tail, false)
      == (CleanEntry(e), if tail == [] then None else Some(tail[1..]))
  {
    var k := e.key;
    FieldTextParts(k, e.value, tail);
    KeyColonOf(k, " " + e.value + tail);
    LowerIdem(k);
    FieldMatchIs(FieldText(e) + tail, |k|);
    FieldValueOf(k, e.value, tail);
  }

  /** What follows the first field line of a block. */
  function BlockTail(es: seq<Entry>): string
    requires es != []
  {
    if |es| == 1 then [] else "\n" + BlockText(es[1..])
  }

  lemma BlockStarts(es: seq<Entry>)
    requires es != [] && GoodEntries(es)
    ensures BlockText(es) == FieldText(es[0]) + BlockTail(es)
    ensures KeyColon(BlockText(es)).Some?
  {
    assert es[0] in es;
    FieldTextParts(es[0].key, es[0].value, BlockTail(es));
    KeyColonOf(es[0].key, " " + es[0].value + BlockTail(es));
  }

  /** A text that starts with a field is scanned from its first character. */
  lemma ScanFieldsAtStart(t: string)
    requires KeyColon(t).Some?
    ensures var m := FieldMatch(t, false);
      ScanFields(t, false) == [m.0] + match m.1 case None => [] case Some(next) => ScanFields(next, false)
  {
    assert Starts(t, FieldStart);
    assert t[0..] == t;
  }

  /** The field regex reads the lines of a block back as the written
      entries, each value cleaned. */
  lemma {:induction false} ScanFieldLines(es: seq<Entry>)
    requires GoodEntries(es)
    ensures ScanFields(BlockText(es), false) == Cleaned(es)
    decreases |es|
  {
    if es != [] {
      var tail := BlockTail(es);
      BlockStarts(es);
      assert es[0] in es;
      if |es| > 1 {
        assert forall e <- es[1..] :: e in es;
        BlockStarts(es[1..]);
        assert tail[1..] == BlockText(es[1..]);
        ScanFieldLines(es[1..]);
      }
      FieldMatchOf(es[0], tail);
      ScanFieldsAtStart(BlockText(es));
    }
  }

  /* ---------------------------------------------------------------------- */
  /* Cleaning the values read back                                           */
  /* ---------------------------------------------------------------------- */

  lemma CleanEmpty()
    ensures CleanValue([]) == []
  {
    assert Strip([]) == [];
  }

  lemma SplitNoNewline(v: string)
    requires NoNewline(v)
    ensures SplitOn(v, "\n") == [v]
  {
    forall i | 0 <= i < |v|
      ensures !StartsWith(v[i..], "\n")
    {
      assert v[i..][0] == v[i];
    }
    SplitOnNone(v, "\n");
  }

  /** A one-line trimmed value written after "key: " reads back unchanged. */
  lemma CleanSingle(v: string)
    requires v != [] && Trimmed(v) && NoNewline(v)
    ensures CleanValue(" " + v) == v
  {
    StripPadded(" ", v, []);
    assert " " + v + [] == " " + v;
    SplitNoNewline(v);
    assert SplitLines(v) == [v];
    StripTrimmed(v);
  }

  /** Stripping the pieces of an indented text gives the stripped pieces of
      the original. */
  lemma StripIndentedPieces(a: seq<string>, b: seq<string>)
    requires IndentedPieces(a, b)
    ensures StripLines(a) == StripLines(b)
  {
    forall i | 0 <= i < |a|
      ensures StripLines(a)[i] == StripLines(b)[i]
    {
      if i > 0 {
        StripIndentedLine(b[i]);
      }
    }
  }

  /** A description written stripped and indented reads back as the
      description cleaned. */
  /** The space after the colon is stripped away from an indented value. */
  lemma StripSpaceIndent(s: string)
    requires s != [] && Trimmed(s)
    ensures Strip(" " + Indent(s)) == Indent(s)
  {
    var x := Indent(s);
    TrimmedIndent(s);
    StripPadded(" ", x, []);
    assert " " + x + [] == " " + x;
  }

  /** A text that does not end in a line break splits into its lines. */
  lemma SplitLinesPlain(s: string)
    requires s != [] && s[|s| - 1] != '\n'
    ensures SplitLines(s) == SplitOn(s, "\n")
  {
  }

  /** Indenting does not change the stripped lines of a trimmed text. */
  lemma LinesOfIndent(s: string)
    requires s != [] && Trimmed(s)
    ensures StripLines(SplitLines(Indent(s))) == StripLines(SplitLines(s))
  {
    var x := Indent(s);
    IndentEnds(s);
    SplitLinesPlain(x);
    SplitLinesPlain(s);
    SplitIndent(s);
    StripIndentedPieces(SplitOn(x, "\n"), SplitOn(s, "\n"));
  }

  lemma CleanIndented(d: string)
    requires Strip(d) != []
    ensures CleanValue(" " + Indent(Strip(d))) == CleanValue(d)
  {
    var s := Strip(d);
    StripSpaceIndent(s);
    LinesOfIndent(s);
  }

  /* ---------------------------------------------------------------------- */
  /* One game entry                                                          */
  /* ---------------------------------------------------------------------- */

  /** A field written only for a non-empty value. */
  function OptEntry(key: string, value: string): seq<Entry> {
    if value != [] then [Entry(key, value)] else []
  }

  /** The description field as written: stripped, continuation lines indented. */
  function DescEntry(description: string): seq<Entry> {
    if description != [] then [Entry("description", Indent(Strip(description)))] else []
  }

  /** The fields write_metadata writes for a game, in order. */
  function GameEntries(g: Game): seq<Entry> {
    [Entry("game", g.game), Entry("file", g.file)]
    + OptEntry("sort-by", g.sortBy)
    + OptEntry("developer", g.developer)
    + DescEntry(g.description)
  }

  /** The fields the parser reads back from them. */
  function ReadEntries(g: Game): seq<Entry> {
    ReadHead(g) + OptEntry("sort-by", g.sortBy) + OptEntry("developer", g.developer) + ReadDesc(g)
  }

  /** Field lines each ended by a line break. */
  function Lines(es: seq<Entry>): string {
    if es == [] then [] else FieldLine(es[0].key, es[0].value) + Lines(es[1..])
  }

  lemma {:induction false} LinesAppend(a: seq<Entry>, b: seq<Entry>)
    ensures Lines(a + b) == Lines(a) + Lines(b)
    decreases |a|
  {
    if a == [] {
      assert a + b == b;
    } else {
      assert (a + b)[1..] == a[1..] + b;
      LinesAppend(a[1..], b);
    }
  }

  lemma {:induction false} LinesBlock(es: seq<Entry>)
    requires es != []
    ensures Lines(es) == BlockText(es) + "\n"
    decreases |es|
  {
    assert FieldLine(es[0].key, es[0].value) == FieldText(es[0]) + "\n";
    if |es| > 1 {
      LinesBlock(es[1..]);
    }
  }

  lemma LinesOne(key: string, value: string)
    ensures Lines([Entry(key, value)]) == FieldLine(key, value)
  {
    assert [Entry(key, value)][1..] == [];
  }

  lemma OptLine(key: string, value: string)
    ensures Lines(OptEntry(key, value)) == OptionalLine(key, value)
  {
    if value != [] {
      LinesOne(key, value);
    }
  }

  lemma HeadLines(g: Game)
    ensures Lines([Entry("game", g.game), Entry("file", g.file)]) == EntryHead(g)
  {
    var head := [Entry("game", g.game), Entry("file", g.file)];
    assert head[1..][1..] == [];
    assert Lines(head[1..]) == FieldLine("file", g.file);
  }

  lemma DescLines(description: string)
    ensures Lines(DescEntry(description)) == DescriptionLine(description)
  {
    if description != [] {
      var v := Indent(Strip(description));
      assert DescEntry(description) == [Entry("description", v)];
      assert DescriptionLine(description) == FieldLine("description", v);
      LinesOne("description", v);
    } else {
      assert DescEntry(description) == [];
      assert DescriptionLine(description) == [];
    }
  }

  /** The entry write_metadata writes for a game is its field lines, each
      ended by a line break. */
  lemma RenderGameBlock(g: Game)
    ensures RenderGame(g) == BlockText(GameEntries(g)) + "\n"
  {
    var head := [Entry("game", g.game), Entry("file", g.file)];
    var a := OptEntry("sort-by", g.sortBy);
    var b := OptEntry("developer", g.developer);
    var c := DescEntry(g.description);
    HeadLines(g);
    OptLine("sort-by", g.sortBy);
    OptLine("developer", g.developer);
    DescLines(g.description);
    LinesAppend(head, a);
    LinesAppend(head + a, b);
    LinesAppend(head + a + b, c);
    LinesBlock(GameEntries(g));
  }

  lemma GameKeyOk()
    ensures IsKey("game") && IsLower("game")
  {
  }

  lemma FileKeyOk()
    ensures IsKey("file") && IsLower("file")
  {
  }

  lemma SortByKeyOk()
    ensures IsKey("sort-by") && IsLower("sort-by")
  {
  }

  lemma DeveloperKeyOk()
    ensures IsKey("developer") && IsLower("developer")
  {
  }

  lemma DescriptionKeyOk()
    ensures IsKey("description") && IsLower("description")
  {
  }

  lemma GoodAppend(a: seq<Entry>, b: seq<Entry>)
    requires GoodEntries(a) && GoodEntries(b)
    ensures GoodEntries(a + b)
  {
  }

  lemma HeadGood(game: string, file: string)
    requires NoNewline(game) && NoNewline(file)
    ensures GoodEntries([Entry("game", game), Entry("file", file)])
  {
    GameKeyOk();
    FileKeyOk();
  }

  lemma OptGood(key: string, value: string)
    requires IsKey(key) && IsLower(key) && NoNewline(value)
    ensures GoodEntries(OptEntry(key, value))
  {
  }

  lemma DescGood(description: string)
    ensures GoodEntries(DescEntry(description))
  {
    DescriptionKeyOk();
    if description != [] {
      IndentIndented(Strip(description));
    }
  }

  lemma GameEntriesGood(g: Game)
    requires NoNewline(g.game) && NoNewline(g.file) && NoNewline(g.sortBy) && NoNewline(g.developer)
    ensures GoodEntries(GameEntries(g))
  {
    var head := [Entry("game", g.game), Entry("file", g.file)];
    var a := OptEntry("sort-by", g.sortBy);
    var b := OptEntry("developer", g.developer);
    var c := DescEntry(g.description);
    HeadGood(g.game, g.file);
    SortByKeyOk();
    OptGood("sort-by", g.sortBy);
    DeveloperKeyOk();
    OptGood("developer", g.developer);
    DescGood(g.description);
    GoodAppend(head, a);
    GoodAppend(head + a, b);
    GoodAppend(head + a + b, c);
  }

  lemma {:induction false} CleanedAppend(a: seq<Entry>, b: seq<Entry>)
    ensures Cleaned(a + b) == Cleaned(a) + Cleaned(b)
    decreases |a|
  {
    if a == [] {
      assert a + b == b;
    } else {
      assert (a + b)[1..] == a[1..] + b;
      CleanedAppend(a[1..], b);
    }
  }

  lemma CleanedHead(g: Game)
    requires Writable(g)
    ensures Cleaned([Entry("game", g.game), Entry("file", g.file)]) == [Entry("game", g.game), Entry("file", g.file)]
  {
    CleanSingle(g.game);
    CleanSingle(g.file);
  }

  lemma CleanedOpt(key: string, value: string)
    requires Trimmed(value) && NoNewline(value)
    ensures Cleaned(OptEntry(key, value)) == OptEntry(key, value)
  {
    if value != [] {
      CleanSingle(value);
    }
  }

  lemma CleanedDesc(description: string)
    requires description == [] || Strip(description) != []
    ensures Cleaned(DescEntry(description))
      == if description != [] then [Entry("description", CleanValue(description))] else []
  {
    if description != [] {
      CleanIndented(description);
    }
  }

  /** Cleaning leaves the one-line fields as written and gives back the
      cleaned description. */
  lemma CleanedGameEntries(g: Game)
    requires Writable(g)
    ensures Cleaned(GameEntries(g)) == ReadEntries(g)
  {
    var head := [Entry("game", g.game), Entry("file", g.file)];
    var a := OptEntry("sort-by", g.sortBy);
    var b := OptEntry("developer", g.developer);
    var c := DescEntry(g.description);
    CleanedHead(g);
    CleanedOpt("sort-by", g.sortBy);
    CleanedOpt("developer", g.developer);
    CleanedDesc(g.description);
    CleanedAppend(head, a);
    CleanedAppend(head + a, b);
    CleanedAppend(head + a + b, c);
  }

  /* ---------------------------------------------------------------------- */
  /* The game read back                                                      */
  /* ---------------------------------------------------------------------- */

  /** A later part of the pairs overrides an earlier one. */
  lemma {:induction false} LastValueAppend(a: seq<Entry>, b: seq<Entry>, k: string)
    ensures LastValue(a + b, k) == if LastValue(b, k).Some? then LastValue(b, k) else LastValue(a, k)
    decreases |b|
  {
    if b == [] {
      assert a + b == a;
    } else {
      assert (a + b)[..|a + b| - 1] == a + b[..|b| - 1];
      LastValueAppend(a, b[..|b| - 1], k);
    }
  }

  /** The last assignment among four consecutive parts. */
  lemma LastValueParts(head: seq<Entry>, a: seq<Entry>, b: seq<Entry>, c: seq<Entry>, k: string)
    ensures LastValue(head + a + b + c, k) ==
      if LastValue(c, k).Some? then LastValue(c, k)
      else if LastValue(b, k).Some? then LastValue(b, k)
      else if LastValue(a, k).Some? then LastValue(a, k)
      else LastValue(head, k)
  {
    LastValueAppend(head, a, k);
    LastValueAppend(head + a, b, k);
    LastValueAppend(head + a + b, c, k);
  }

  /** The parts of the fields read back. */
  function ReadHead(g: Game): seq<Entry> {
    [Entry("game", g.game), Entry("file", g.file)]
  }

  function ReadDesc(g: Game): seq<Entry> {
    if g.description != [] then [Entry("description", CleanValue(g.description))] else []
  }

  lemma ReadGame(g: Game)
    ensures LastValue(ReadEntries(g), "game").GetOr([]) == g.game
  {
    LastValueParts(ReadHead(g), OptEntry("sort-by", g.sortBy), OptEntry("developer", g.developer), ReadDesc(g), "game");
    assert ReadHead(g)[..1] == [Entry("game", g.game)];
  }

  lemma ReadFile(g: Game)
    ensures LastValue(ReadEntries(g), "file").GetOr([]) == g.file
  {
    LastValueParts(ReadHead(g), OptEntry("sort-by", g.sortBy), OptEntry("developer", g.developer), ReadDesc(g), "file");
  }

  lemma ReadSortBy(g: Game)
    ensures LastValue(ReadEntries(g), "sort-by").GetOr([]) == g.sortBy
  {
    LastValueParts(ReadHead(g), OptEntry("sort-by", g.sortBy), OptEntry("developer", g.developer), ReadDesc(g), "sort-by");
  }

  lemma ReadDeveloper(g: Game)
    ensures LastValue(ReadEntries(g), "developer").GetOr([]) == g.developer
  {
    LastValueParts(ReadHead(g), OptEntry("sort-by", g.sortBy), OptEntry("developer", g.developer), ReadDesc(g), "developer");
  }

  lemma ReadDescription(g: Game)
    ensures LastValue(ReadEntries(g), "description").GetOr([]) == CleanValue(g.description)
  {
    var c := ReadDesc(g);
    LastValueParts(ReadHead(g), OptEntry("sort-by", g.sortBy), OptEntry("developer", g.developer), c, "description");
    if g.description == [] {
      assert c == [];
      assert LastValue(ReadEntries(g), "description") == None;
      CleanEmpty();
    } else {
      assert LastValue(c, "description") == Some(CleanValue(g.description));
    }
  }

  /** The value each field of a written game reads back as. */
  lemma ReadEntriesValues(g: Game)
    ensures LastValue(ReadEntries(g), "game").GetOr([]) == g.game
    ensures LastValue(ReadEntries(g), "file").GetOr([]) == g.file
    ensures LastValue(ReadEntries(g), "sort-by").GetOr([]) == g.sortBy
    ensures LastValue(ReadEntries(g), "developer").GetOr([]) == g.developer
    ensures LastValue(ReadEntries(g), "description").GetOr([]) == CleanValue(g.description)
  {
    ReadGame(g);
    ReadFile(g);
    ReadSortBy(g);
    ReadDeveloper(g);
    ReadDescription(g);
  }

  lemma FieldsOfBlock(g: Game)
    requires Writable(g)
    ensures ScanFields(BlockText(GameEntries(g)), false) == ReadEntries(g)
  {
    GameEntriesGood(g);
    ScanFieldLines(GameEntries(g));
    CleanedGameEntries(g);
  }

  lemma BlockFieldFrom(block: string, ps: seq<Entry>, k: string)
    requires ScanFields(block, false) == ps
    ensures BlockField(block, k) == LastValue(ps, k).GetOr([])
  {
    FromPairsGet(ps, k);
  }

  /** The fields a block holds once its scan is known. */
  lemma BlockFieldsOf(block: string, g: Game)
    requires ScanFields(block, false) == ReadEntries(g)
    ensures && BlockField(block, "game") == g.game
            && BlockField(block, "file") == g.file
            && BlockField(block, "sort-by") == g.sortBy
            && BlockField(block, "developer") == g.developer
            && BlockField(block, "description") == CleanValue(g.description)
  {
    var ps := ReadEntries(g);
    BlockFieldFrom(block, ps, "game");
    BlockFieldFrom(block, ps, "file");
    BlockFieldFrom(block, ps, "sort-by");
    BlockFieldFrom(block, ps, "developer");
    BlockFieldFrom(block, ps, "description");
    ReadEntriesValues(g);
  }

  /** _parse_game_block once the block's field values are known. */
  lemma ParseGameBlockIs(block: string, game: string, file: string, sortBy: string, developer: string,
                         description: string, dir: Path, name: string)
    requires game != [] && file != [] && Unquote(file) == file
    requires BlockField(block, "game") == game
    requires BlockField(block, "file") == file
    requires BlockField(block, "sort-by") == sortBy
    requires BlockField(block, "developer") == developer
    requires BlockField(block, "description") == description
    ensures ParseGameBlock(block, dir, name) == Some(Game(game, file, sortBy, developer, description, name, Some(dir)))
  {
  }

  /** A block whose fields read as those written for a game parses back as
      the game, its description cleaned and its platform taken from the
      directory. */
  lemma ParseBlockOf(block: string, g: Game, dir: Path, name: string)
    requires g.game != [] && g.file != [] && Unquote(g.file) == g.file
    requires ScanFields(block, false) == ReadEntries(g)
    ensures ParseGameBlock(block, dir, name) == Some(Reparsed(g, dir, name))
  {
    BlockFieldsOf(block, g);
    ParseGameBlockIs(block, g.game, g.file, g.sortBy, g.developer, CleanValue(g.description), dir, name);
  }

  /* ---------------------------------------------------------------------- */
  /* Blocks in the file                                                      */
  /* ---------------------------------------------------------------------- */

  /** No blank line: every line break is followed by a character other
      than a line break. */
  predicate SingleBreaks(s: string) {
    forall i :: 0 <= i < |s| && s[i] == '\n' ==> i + 1 < |s| && s[i + 1] != '\n'
  }

  /** What the written fields look like: readable, with non-empty trimmed values. */
  predicate SoundEntries(es: seq<Entry>) {
    GoodEntries(es) && forall e <- es :: e.value != [] && Trimmed(e.value)
  }

  /** The look of a written block: it starts with a key character, ends
      with a visible character, and has no blank line. */
  predicate BlockShaped(b: string) {
    b != [] && IsKeyChar(b[0]) && !IsSpace(b[|b| - 1]) && SingleBreaks(b)
  }

  lemma FieldTextShaped(e: Entry)
    requires IsKey(e.key) && Indented(e.value) && e.value != [] && Trimmed(e.value)
    ensures BlockShaped(FieldText(e))
  {
    KeyLineBreaks(e.key, e.value);
    KeyLineEnds(e.key, e.value);
  }

  /** The only line breaks of a field line are those of its indented value. */
  lemma KeyLineBreaks(key: string, v: string)
    requires IsKey(key) && Indented(v)
    ensures SingleBreaks(key + ": " + v)
  {
    var t := key + ": " + v;
    var k := |key|;
    assert forall i | 0 <= i < k :: t[i] == key[i];
    assert t[k] == ':' && t[k + 1] == ' ';
    assert forall j | 0 <= j < |v| :: t[k + 2 + j] == v[j];
  }

  lemma KeyLineEnds(key: string, v: string)
    requires IsKey(key) && v != [] && Trimmed(v)
    ensures var t := key + ": " + v;
      IsKeyChar(t[0]) && !IsSpace(t[|t| - 1])
  {
    var t := key + ": " + v;
    assert t[0] == key[0];
    assert t[|t| - 1] == v[|v| - 1];
  }

  lemma JoinShaped(a: string, b: string)
    requires BlockShaped(a) && BlockShaped(b)
    ensures BlockShaped(a + "\n" + b)
  {
    var t := a + "\n" + b;
    forall i | 0 <= i < |t| && t[i] == '\n'
      ensures i + 1 < |t| && t[i + 1] != '\n'
    {
      if i < |a| {
        assert t[i] == a[i];
        if i + 1 < |a| {
          assert t[i + 1] == a[i + 1];
        }
      } else if i > |a| {
        assert t[i] == b[i - |a| - 1];
        assert t[i + 1] == b[i - |a|];
      }
    }
  }

  lemma {:induction false} BlockTextShaped(es: seq<Entry>)
    requires es != [] && SoundEntries(es)
    ensures BlockShaped(BlockText(es))
    decreases |es|
  {
    assert es[0] in es;
    FieldTextShaped(es[0]);
    if |es| > 1 {
      assert forall e <- es[1..] :: e in es;
      BlockTextShaped(es[1..]);
      JoinShaped(FieldText(es[0]), BlockText(es[1..]));
    }
  }

  lemma SoundAppend(a: seq<Entry>, b: seq<Entry>)
    requires SoundEntries(a) && SoundEntries(b)
    ensures SoundEntries(a + b)
  {
  }

  lemma GameEntriesSound(g: Game)
    requires Writable(g)
    ensures SoundEntries(GameEntries(g))
  {
    var head := [Entry("game", g.game), Entry("file", g.file)];
    var a := OptEntry("sort-by", g.sortBy);
    var b := OptEntry("developer", g.developer);
    var c := DescEntry(g.description);
    GameEntriesGood(g);
    assert GameEntries(g) == head + a + b + c;
    assert forall e <- GameEntries(g) :: e in head + a + b + c;
    if g.description != [] {
      TrimmedIndent(Strip(g.description));
    }
    assert forall e <- head :: e.value != [] && Trimmed(e.value);
    assert forall e <- a + b :: e.value != [] && Trimmed(e.value);
    assert forall e <- c :: e.value != [] && Trimmed(e.value);
  }

  /** No blank line starts inside a written block, preceded by at most one
      line break: its only line breaks are followed by visible text. */
  lemma NoBlankIn(p: string, b: string, s: string)
    requires p == [] || p == "\n"
    requires BlockShaped(b)
    requires |s| > |p + b| && s[..|p + b|] == p + b
    ensures forall i :: 0 <= i < |p + b| ==> !StartsWith(s[i..], "\n\n")
  {
    forall i | 0 <= i < |p + b|
      ensures !StartsWith(s[i..], "\n\n")
    {
      assert s[i] == (p + b)[i];
      if s[i] == '\n' {
        var j := i + 1;
        if i < |p| {
          assert s[j] == (p + b)[j] == b[0];
        } else {
          assert b[i - |p|] == '\n';
          assert s[j] == (p + b)[j] == b[j - |p|];
        }
        assert s[i..][1] == s[j];
      } else {
        assert s[i..][0] == s[i];
      }
    }
  }

  /** The first blank line of the text after a written block ends that block. */
  lemma SplitAfterBlock(p: string, b: string, x: string)
    requires p == [] || p == "\n"
    requires BlockShaped(b)
    ensures SplitOn(p + b + "\n\n" + x, "\n\n") == [p + b] + SplitOn(x, "\n\n")
  {
    var s := p + b + "\n\n" + x;
    assert s[..|p + b|] == p + b;
    NoBlankIn(p, b, s);
    SplitOnFirst(p + b, "\n\n", x);
  }

  /** The last written block, with its final line break, is one piece. */
  lemma SplitLastBlock(p: string, b: string)
    requires p == [] || p == "\n"
    requires BlockShaped(b)
    ensures SplitOn(p + b + "\n", "\n\n") == [p + b + "\n"]
  {
    var s := p + b + "\n";
    assert s[..|p + b|] == p + b;
    NoBlankIn(p, b, s);
    assert !StartsWith(s[|p + b|..], "\n\n");
    SplitOnNone(s, "\n\n");
  }

  /** BlockGame once the stripped block is known. */
  lemma BlockGameIs(text: string, b: string, dir: Path, name: string)
    requires Strip(text) == b && b != [] && b[0] != '#'
    ensures BlockGame(text, dir, name) == ParseGameBlock(b, dir, name)
  {
  }

  /** The padding around a written block is stripped away before it is parsed. */
  lemma PaddedBlockGame(p: string, b: string, q: string, dir: Path, name: string)
    requires p == [] || p == "\n"
    requires q == [] || q == "\n"
    requires BlockShaped(b)
    ensures BlockGame(p + b + q, dir, name) == ParseGameBlock(b, dir, name)
  {
    StripPadded(p, b, q);
    BlockGameIs(p + b + q, b, dir, name);
  }

  lemma GameBlockShaped(g: Game)
    requires Writable(g)
    ensures BlockShaped(BlockText(GameEntries(g)))
  {
    GameEntriesSound(g);
    BlockTextShaped(GameEntries(g));
  }

  /** A written block, after an optional line break and before an optional
      final line break, is read as the game it was written from. */
  lemma BlockGameOf(g: Game, p: string, q: string, dir: Path, name: string)
    requires Writable(g)
    requires p == [] || p == "\n"
    requires q == [] || q == "\n"
    ensures BlockShaped(BlockText(GameEntries(g)))
    ensures BlockGame(p + BlockText(GameEntries(g)) + q, dir, name) == Some(Reparsed(g, dir, name))
  {
    GameBlockShaped(g);
    FieldsOfBlock(g);
    WritableNames(g);
    PaddedParse(p, BlockText(GameEntries(g)), q, g, dir, name);
  }

  /** A writable game has a display name and a file name that unquoting
      leaves alone. */
  lemma WritableNames(g: Game)
    requires Writable(g)
    ensures g.game != [] && g.file != [] && Unquote(g.file) == g.file
  {
  }

  lemma PaddedParse(p: string, b: string, q: string, g: Game, dir: Path, name: string)
    requires p == [] || p == "\n"
    requires q == [] || q == "\n"
    requires BlockShaped(b)
    requires g.game != [] && g.file != [] && Unquote(g.file) == g.file
    requires ScanFields(b, false) == ReadEntries(g)
    ensures BlockGame(p + b + q, dir, name) == Some(Reparsed(g, dir, name))
  {
    PaddedBlockGame(p, b, q, dir, name);
    ParseBlockOf(b, g, dir, name);
  }

  /* ---------------------------------------------------------------------- */
  /* The game list                                                           */
  /* ---------------------------------------------------------------------- */

  lemma RenderAllCons(gs: seq<Game>)
    requires gs != []
    ensures RenderAll(gs) == [RenderGame(gs[0])] + RenderAll(gs[1..])
  {
    var r := RenderAll(gs);
    var rest := RenderAll(gs[1..]);
    forall i | 1 <= i < |r|
      ensures r[i] == rest[i - 1]
    {
      assert gs[1..][i - 1] == gs[i];
    }
    ConsOf(r, RenderGame(gs[0]), rest);
  }

  lemma ConsOf(r: seq<string>, x: string, rest: seq<string>)
    requires |r| == |rest| + 1 && r[0] == x
    requires forall i :: 1 <= i < |r| ==> r[i] == rest[i - 1]
    ensures r == [x] + rest
  {
  }

  /** The entries after the first are written after a blank line. */
  lemma JoinCons(x: string, xs: seq<string>, sep: string)
    requires xs != []
    ensures Join([x] + xs, sep) == x + sep + Join(xs, sep)
  {
    assert ([x] + xs)[1..] == xs;
  }

  /** No game is read from what is left after the last game, or from an
      empty game part. */
  lemma ParseNothing(p: string, dir: Path, name: string)
    requires p == [] || p == "\n"
    ensures ParseBlocks(SplitOn(p, "\n\n"), dir, name) == []
  {
    assert SplitOn(p, "\n\n") == [p];
    StripBlank(p);
    BlankBlock(p, dir, name);
  }

  lemma StripBlank(p: string)
    requires p == [] || p == "\n"
    ensures Strip(p) == []
  {
    StripPadded(p, [], []);
    assert p + [] + [] == p;
  }

  /** A block with nothing but white space holds no game. */
  lemma BlankBlock(p: string, dir: Path, name: string)
    requires Strip(p) == []
    ensures ParseBlocks([p], dir, name) == []
  {
    assert BlockGame(p, dir, name) == None;
    assert [p][1..] == [];
  }

  /** The last block is read on its own. */
  lemma ParseLastBlock(p: string, b: string, r: Game, dir: Path, name: string)
    requires p == [] || p == "\n"
    requires BlockShaped(b)
    requires BlockGame(p + b + "\n", dir, name) == Some(r)
    ensures ParseBlocks(SplitOn(p + b + "\n", "\n\n"), dir, name) == [r]
  {
    SplitLastBlock(p, b);
  }

  /** A block followed by a blank line is read, then the rest. */
  lemma ParseNextBlock(p: string, b: string, x: string, r: Game, dir: Path, name: string)
    requires p == [] || p == "\n"
    requires BlockShaped(b)
    requires BlockGame(p + b, dir, name) == Some(r)
    ensures ParseBlocks(SplitOn(p + b + "\n\n" + x, "\n\n"), dir, name)
      == [r] + ParseBlocks(SplitOn(x, "\n\n"), dir, name)
  {
    SplitAfterBlock(p, b, x);
    var pieces := [p + b] + SplitOn(x, "\n\n");
    assert pieces[1..] == SplitOn(x, "\n\n");
  }

  lemma TextOne(p: string, x: string, b: string, parts: seq<string>)
    requires parts == [x] && x == b + "\n"
    ensures p + Join(parts, "\n\n") == p + b + "\n"
  {
  }

  lemma TextMany(p: string, x: string, b: string, parts: seq<string>, tail: seq<string>)
    requires parts == [x] + tail && tail != [] && x == b + "\n"
    ensures p + Join(parts, "\n\n") == p + b + "\n\n" + ("\n" + Join(tail, "\n\n"))
  {
    JoinCons(x, tail, "\n\n");
    var r := Join(tail, "\n\n");
    assert p + (b + "\n" + "\n\n" + r) == p + b + "\n\n" + ("\n" + r);
  }

  lemma ParseRenderedOne(p: string, gs: seq<Game>, dir: Path, name: string)
    requires p == [] || p == "\n"
    requires |gs| == 1 && Writable(gs[0])
    ensures ParseBlocks(SplitOn(p + Join(RenderAll(gs), "\n\n"), "\n\n"), dir, name) == ReparsedAll(gs, dir, name)
  {
    var g := gs[0];
    var b := BlockText(GameEntries(g));
    RenderAllCons(gs);
    RenderGameBlock(g);
    BlockGameOf(g, p, "\n", dir, name);
    TextOne(p, RenderGame(g), b, RenderAll(gs));
    ParseLastBlock(p, b, Reparsed(g, dir, name), dir, name);
  }

  lemma ParseRenderedStep(p: string, gs: seq<Game>, dir: Path, name: string)
    requires p == [] || p == "\n"
    requires |gs| > 1 && Writable(gs[0])
    requires ParseBlocks(SplitOn("\n" + Join(RenderAll(gs[1..]), "\n\n"), "\n\n"), dir, name)
      == ReparsedAll(gs[1..], dir, name)
    ensures ParseBlocks(SplitOn(p + Join(RenderAll(gs), "\n\n"), "\n\n"), dir, name) == ReparsedAll(gs, dir, name)
  {
    var g := gs[0];
    var b := BlockText(GameEntries(g));
    RenderAllCons(gs);
    RenderGameBlock(g);
    TextMany(p, RenderGame(g), b, RenderAll(gs), RenderAll(gs[1..]));
    BlockGameOf(g, p, [], dir, name);
    assert p + b + [] == p + b;
    ParseNextBlock(p, b, "\n" + Join(RenderAll(gs[1..]), "\n\n"), Reparsed(g, dir, name), dir, name);
  }

  /** The text after the header holds the written games in order: each block
      between blank lines reads back as the next game. */
  lemma {:induction false} ParseRendered(p: string, gs: seq<Game>, dir: Path, name: string)
    requires p == [] || p == "\n"
    requires forall g <- gs :: Writable(g)
    ensures ParseBlocks(SplitOn(p + Join(RenderAll(gs), "\n\n"), "\n\n"), dir, name) == ReparsedAll(gs, dir, name)
    decreases |gs|
  {
    if gs == [] {
      assert p + Join(RenderAll(gs), "\n\n") == p;
      ParseNothing(p, dir, name);
    } else {
      assert gs[0] in gs;
      if |gs| == 1 {
        ParseRenderedOne(p, gs, dir, name);
      } else {
        assert forall h <- gs[1..] :: h in gs;
        ParseRendered("\n", gs[1..], dir, name);
        ParseRenderedStep(p, gs, dir, name);
      }
    }
  }

  /* ---------------------------------------------------------------------- */
  /* The header                                                              */
  /* ---------------------------------------------------------------------- */

  /** FirstLine is the first line start where the pattern matches. */
  lemma FirstLineIs(t: string, pat: Pattern, p: nat)
    requires p < |t| && LineStart(t, p) && Starts(t[p..], pat)
    requires forall q :: 0 <= q < p && LineStart(t, q) ==> !Starts(t[q..], pat)
    ensures FirstLine(t, pat) == Some(p)
  {
  }

  lemma FirstLineNone(t: string, pat: Pattern)
    requires forall q :: 0 <= q < |t| && LineStart(t, q) ==> !Starts(t[q..], pat)
    ensures FirstLine(t, pat) == None
  {
  }

  /** No line of the header part starts a game, whatever follows it. */
  lemma HeaderHasNoGame(header: string, x: string, q: nat)
    requires HeaderOk(header) && header != []
    requires q < |header| + 2 && LineStart(header + "\n\n" + x, q)
    ensures !GameKeyAt((header + "\n\n" + x)[q..])
  {
    var t := header + "\n\n" + x;
    if |t[q..]| >= 4 {
      var w := t[q..][..4];
      assert w == t[q..q + 4];
      if q + 4 <= |header| {
        assert w == header[q..q + 4];
        assert LineStart(header, q) by {
          if q > 0 {
            assert t[q - 1] == header[q - 1];
          }
        }
      } else {
        var j := if q <= |header| then |header| - q else 0;
        assert t[q + j] == '\n';
        assert w[j] == '\n';
        assert Lower(w)[j] == '\n';
        assert "game"[j] != '\n';
      }
    }
  }

  lemma GameKeyAtStart(g: string)
    requires |g| >= 5 && g[..5] == "game:"
    ensures GameKeyAt(g)
  {
    assert g[..4] == "game";
    assert g[4..][0] == ':';
  }

  lemma HeaderPartNoGame(header: string, g: string)
    requires HeaderOk(header)
    ensures var t := HeaderPart(header) + g;
      forall q :: 0 <= q < |HeaderPart(header)| && q < |t| && LineStart(t, q) ==> !Starts(t[q..], GameStart)
  {
    var hp := HeaderPart(header);
    var t := hp + g;
    forall q | 0 <= q < |hp| && q < |t| && LineStart(t, q)
      ensures !Starts(t[q..], GameStart)
    {
      assert t == header + "\n\n" + g;
      HeaderHasNoGame(header, g, q);
    }
  }

  /** The blank line written after the header is stripped off with the
      header's own surrounding whitespace. */
  lemma StripHeaderPart(header: string)
    ensures Strip(HeaderPart(header)) == Strip(header)
  {
    if header != [] {
      StripPaddedRight(header, "\n\n");
    }
  }

  /** Without games the whole text is the header. */
  lemma SplitHeaderAlone(header: string)
    requires HeaderOk(header)
    ensures SplitHeader(HeaderPart(header)) == (Strip(header), [])
  {
    var hp := HeaderPart(header);
    HeaderPartNoGame(header, []);
    assert hp + [] == hp;
    FirstLineNone(hp, GameStart);
    StripHeaderPart(header);
  }

  /** The first game line after the header part starts the game text. */
  lemma SplitHeaderGames(header: string, g: string)
    requires HeaderOk(header)
    requires |g| >= 5 && g[..5] == "game:"
    ensures SplitHeader(HeaderPart(header) + g) == (Strip(header), g)
  {
    var hp := HeaderPart(header);
    var t := hp + g;
    HeaderPartNoGame(header, g);
    assert t[|hp|..] == g;
    GameKeyAtStart(g);
    assert LineStart(t, |hp|);
    FirstLineIs(t, GameStart, |hp|);
    assert t[..|hp|] == hp;
    StripHeaderPart(header);
  }

  lemma PrefixOfConcat(a: string, b: string, n: nat)
    requires n <= |a|
    ensures (a + b)[..n] == a[..n]
  {
  }

  lemma EntryHeadStart(g: Game)
    ensures |EntryHead(g)| >= 5 && EntryHead(g)[..5] == "game:"
  {
    var first := FieldLine("game", g.game);
    assert first == "game: " + (g.game + "\n");
    PrefixOfConcat("game: ", g.game + "\n", 5);
    PrefixOfConcat(first, FieldLine("file", g.file), 5);
  }

  lemma PartsStart(e: string, a: string, b: string, c: string)
    requires |e| >= 5 && e[..5] == "game:"
    ensures |e + a + b + c| >= 5 && (e + a + b + c)[..5] == "game:"
  {
    PrefixOfConcat(e, a, 5);
    PrefixOfConcat(e + a, b, 5);
    PrefixOfConcat(e + a + b, c, 5);
  }

  lemma RenderGameStart(g: Game)
    ensures |RenderGame(g)| >= 5 && RenderGame(g)[..5] == "game:"
  {
    EntryHeadStart(g);
    PartsStart(EntryHead(g), OptionalLine("sort-by", g.sortBy), OptionalLine("developer", g.developer),
               DescriptionLine(g.description));
  }

  lemma RenderedStart(games: seq<Game>)
    requires games != []
    ensures var text := Join(RenderAll(games), "\n\n");
      |text| >= 5 && text[..5] == "game:"
  {
    RenderGameStart(games[0]);
    JoinStart(RenderAll(games), "\n\n");
  }

  /** A joined list starts the way its first part does. */
  lemma JoinStart(parts: seq<string>, sep: string)
    requires parts != [] && |parts[0]| >= 5 && parts[0][..5] == "game:"
    ensures |Join(parts, sep)| >= 5 && Join(parts, sep)[..5] == "game:"
  {
    if |parts| > 1 {
      var rest := sep + Join(parts[1..], sep);
      assert Join(parts, sep) == parts[0] + rest;
      PrefixOfConcat(parts[0], rest, 5);
    }
  }

  /** The round trip of write_metadata and parse_platform_directory: the
      text written for a header and a list of games parses back into the
      header stripped of surrounding whitespace and the same games, in order, each with its description
      cleaned and its platform set from the directory it is read from. */
  lemma WriteThenParse(header: string, games: seq<Game>, dir: Path, name: string)
    requires HeaderOk(header)
    requires forall g <- games :: Writable(g)
    ensures ParsePlatformText(Serialize(header, games), dir, name) == (Strip(header), ReparsedAll(games, dir, name))
  {
    var text := Join(RenderAll(games), "\n\n");
    if games != [] {
      RenderedStart(games);
      SplitHeaderGames(header, text);
    } else {
      assert text == [];
      SplitHeaderAlone(header);
      assert HeaderPart(header) + text == HeaderPart(header);
    }
    ParseRendered([], games, dir, name);
    assert [] + text == text;
  }
}
