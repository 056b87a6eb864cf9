/** MetadataParser of core/metadata_parser.py: reading and writing the
    metadata.pegasus.txt file of a platform directory.

    A file is a header (directory-wide `key: value` fields) followed by game
    blocks separated by blank lines. The Python code finds fields with regular
    expressions; here each regex is written out as the scan it performs over
    the characters of the text. Functions over text take the REMAINING text (a
    suffix that starts at the beginning of a line), so that scans compose when
    texts are concatenated. */
module MetadataParser {
  import opened Wrappers
  import opened Text
  import opened Dict
  import opened FileSys
  import opened MetadataFormat

  const MetadataFileName := "metadata.pegasus.txt"
  const MediaFolderName := "media"
  const UnknownCollection := "Unknown Collection"

  /* ---------------------------------------------------------------------- */
  /* The pieces of the field regexes                                         */
  /* ---------------------------------------------------------------------- */

  /** The class [a-zA-Z0-9_-] of key characters. */
  predicate IsKeyChar(c: char) {
    ('a' <= c <= 'z') || ('A' <= c <= 'Z') || ('0' <= c <= '9') || c == '_' || c == '-'
  }

  predicate IsKey(k: string) {
    k != [] && forall i :: 0 <= i < |k| ==> IsKeyChar(k[i])
  }

  /** Length of the key-character run that begins u: `[a-zA-Z0-9_-]+` takes all of it. */
  function KeyRunLen(u: string): (n: nat)
    ensures n <= |u|
    ensures forall i :: 0 <= i < n ==> IsKeyChar(u[i])
    ensures n < |u| ==> !IsKeyChar(u[n])
  {
    if u != [] && IsKeyChar(u[0]) then 1 + KeyRunLen(u[1..]) else 0
  }

  /** Length of the whitespace run that begins u: `\s*` (line breaks included). */
  function SpaceRunLen(u: string): (n: nat)
    ensures n <= |u|
    ensures AllSpace(u[..n])
    ensures n < |u| ==> !IsSpace(u[n])
  {
    if u != [] && IsSpace(u[0]) then 1 + SpaceRunLen(u[1..]) else 0
  }

  /** `[a-zA-Z0-9_-]+\s*:` at the start of u: the index of its colon. */
  function KeyColon(u: string): (r: Option<nat>)
    ensures r.Some? ==> 0 < KeyRunLen(u) <= r.value < |u| && u[r.value] == ':'
    ensures r.Some? ==> AllSpace(u[KeyRunLen(u)..r.value])
  {
    var k := KeyRunLen(u);
    if k == 0 then None
    else
      var c := k + SpaceRunLen(u[k..]);
      assert u[k..c] == u[k..][..c - k];
      if c < |u| && u[c] == ':' then Some(c) else None
  }

  /** `game\s*:` (any letter case) at the start of u. */
  predicate GameKeyAt(u: string) {
    |u| >= 4 && Lower(u[..4]) == "game"
    && var c := 4 + SpaceRunLen(u[4..]); c < |u| && u[c] == ':'
  }

  /** The two line patterns the parser searches for at column 0. */
  datatype Pattern = FieldStart | GameStart

  predicate Starts(u: string, pat: Pattern) {
    match pat
    case FieldStart => KeyColon(u).Some?
    case GameStart => GameKeyAt(u)
  }

  /** Index q of t is the beginning of a line (what `^` matches under re.MULTILINE). */
  predicate LineStart(t: string, q: int) {
    q == 0 || (0 < q <= |t| && t[q - 1] == '\n')
  }

  /** The index of the first '\n' of t, or |t|. */
  function LineEnd(t: string): (n: nat)
    ensures n <= |t| && (n < |t| ==> t[n] == '\n')
    ensures forall i :: 0 <= i < n ==> t[i] != '\n'
  {
    if t == [] || t[0] == '\n' then 0 else 1 + LineEnd(t[1..])
  }

  /** The first line of t that begins with the pattern: where re.search (and the
      first step of re.finditer) finds `^pattern` under re.MULTILINE. */
  function FirstLine(t: string, pat: Pattern): (r: Option<nat>)
    ensures r.Some? ==> r.value < |t| && LineStart(t, r.value) && Starts(t[r.value..], pat)
    ensures forall q :: 0 <= q <= |t| && LineStart(t, q) && (r.None? || q < r.value) ==> !Starts(t[q..], pat)
    decreases |t|
  {
    if Starts(t, pat) then
      assert t[0..] == t;
      Some(0)
    else
      var e := LineEnd(t);
      if e == |t| then
        assert forall q :: 0 < q <= |t| ==> !LineStart(t, q);
        None
      else
        var t' := t[e + 1..];
        var r' := FirstLine(t', pat);
        assert forall q :: 0 < q <= e ==> !LineStart(t, q);
        assert forall q :: e < q <= |t| ==> t[q..] == t'[q - e - 1..] && (LineStart(t, q) <==> LineStart(t', q - e - 1));
        match r'
        case None => None
        case Some(p) => Some(e + 1 + p)
  }

  /** Lookahead of the game-block regex, `\n[a-zA-Z0-9_-]+\s*:`: a line break
      followed by a key at column 0. */
  predicate GameFieldBreak(u: string) {
    |u| > 0 && u[0] == '\n' && KeyColon(u[1..]).Some?
  }

  /** Lookahead of the header regex, `\n+\s*[a-zA-Z0-9_-]+\s*:`: a line break,
      any whitespace, then a key, which may be indented. */
  predicate HeaderFieldBreak(u: string) {
    |u| > 0 && u[0] == '\n' && KeyColon(u[1 + SpaceRunLen(u[1..])..]).Some?
  }

  predicate FieldBreak(u: string, header: bool) {
    if header then HeaderFieldBreak(u) else GameFieldBreak(u)
  }

  /** The end of the lazy value group `(.*?)` that starts at index i of u:
      the first field break at or after i, or the end of the text (`\Z`). */
  function ValueEnd(u: string, header: bool, i: nat): (n: nat)
    requires i <= |u|
    ensures i <= n <= |u|
    ensures n < |u| ==> FieldBreak(u[n..], header)
    ensures forall j {:trigger FieldBreak(u[j..], header)} :: i <= j < n ==> !FieldBreak(u[j..], header)
    decreases |u| - i
  {
    if i == |u| || FieldBreak(u[i..], header) then i else ValueEnd(u, header, i + 1)
  }

  /** The value as stored: value.strip(), then every line stripped and the
      lines joined with '\n'. */
  function CleanValue(v: string): string {
    Join(StripLines(SplitLines(Strip(v))), "\n")
  }

  /** One match of the field regex at the start of u: the (lowercased key,
      cleaned value) pair, and the text after the line break that ends the
      value, if the value does not run to the end. */
  function FieldMatch(u: string, header: bool): (r: (Entry, Option<string>))
    requires KeyColon(u).Some?
    ensures IsKey(r.0.key) && IsLower(r.0.key)
    ensures r.1.Some? ==> |r.1.value| < |u|
  {
    var k := KeyRunLen(u);
    LowerKey(u[..k]);
    FieldValue(Lower(u[..k]), u[KeyColon(u).value + 1..], header)
  }

  /** The value part of a match: the text after the colon up to the first
      field break, cleaned, and what follows that break. */
  function FieldValue(key: string, rest: string, header: bool): (r: (Entry, Option<string>))
    ensures r.0.key == key
    ensures r.1.Some? ==> |r.1.value| < |rest|
  {
    var n := ValueEnd(rest, header, 0);
    (Entry(key, CleanValue(rest[..n])), if n == |rest| then None else Some(rest[n + 1..]))
  }

  lemma LowerKey(k: string)
    requires IsKey(k)
    ensures IsKey(Lower(k)) && IsLower(Lower(k))
  {
  }

  /** The matches of the field regex over t, in order, as (lowercased key,
      cleaned value) pairs; `header` selects the header regex's lookahead.
      After a match ending at a line break the search resumes on the next line. */
  function ScanFields(t: string, header: bool): (r: seq<Entry>)
    ensures forall e <- r :: IsKey(e.key) && IsLower(e.key)
    decreases |t|
  {
    match FirstLine(t, FieldStart)
    case None => []
    case Some(p) =>
      var m := FieldMatch(t[p..], header);
      var rest := match m.1 case None => [] case Some(next) => ScanFields(next, header);
      [m.0] + rest
  }

  /* ---------------------------------------------------------------------- */
  /* Game blocks                                                             */
  /* ---------------------------------------------------------------------- */

  /** A file name wrapped in double quotes loses them and is stripped again. */
  function Unquote(v: string): (r: string)
    ensures |v| >= 2 && v[0] == '"' && v[|v| - 1] == '"' ==> r == Strip(v[1..|v| - 1])
    ensures !(|v| >= 2 && v[0] == '"' && v[|v| - 1] == '"') ==> r == v
  {
    if |v| >= 2 && v[0] == '"' && v[|v| - 1] == '"' then Strip(v[1..|v| - 1]) else v
  }

  /** The value the block's field dict holds for key k, "" when absent. */
  function BlockField(block: string, k: string): string {
    Get(FromPairs(ScanFields(block, false)), k).GetOr([])
  }

  /** MetadataParser._parse_game_block: the game described by one block, or
      None when it lacks a display name or a file name. */
  function ParseGameBlock(block: string, platformPath: Path, platformName: string): (r: Option<Game>)
    ensures r.Some? ==> r.value.game != [] && r.value.file != []
    ensures r.Some? ==> r.value.platform == platformName && r.value.platformPath == Some(platformPath)
  {
    var g := Game(
      BlockField(block, "game"),
      Unquote(BlockField(block, "file")),
      BlockField(block, "sort-by"),
      BlockField(block, "developer"),
      BlockField(block, "description"),
      platformName,
      Some(platformPath));
    if g.game != [] && g.file != [] then Some(g) else None
  }

  /** The value assigned last to k among the fields of the block, "" when none is. */
  function LastField(block: string, k: string): string {
    LastValue(ScanFields(block, false), k).GetOr([])
  }

  /** A block yields a game exactly when its last `game` value and its
      unquoted last `file` value are both non-empty; the game then carries
      those values and the block's other fields, and otherwise the block is
      dropped without an error. */
  lemma ParseGameBlockYields(block: string, platformPath: Path, platformName: string)
    ensures var r := ParseGameBlock(block, platformPath, platformName);
      && (r.Some? <==> LastField(block, "game") != [] && Unquote(LastField(block, "file")) != [])
      && (r.Some? ==> r.value == Game(LastField(block, "game"), Unquote(LastField(block, "file")),
                                      LastField(block, "sort-by"), LastField(block, "developer"),
                                      LastField(block, "description"), platformName, Some(platformPath)))
  {
    var ps := ScanFields(block, false);
    FromPairsGet(ps, "game");
    FromPairsGet(ps, "file");
    FromPairsGet(ps, "sort-by");
    FromPairsGet(ps, "developer");
    FromPairsGet(ps, "description");
  }

  /** What every parsed game satisfies: a display name, a file name, and the
      platform it was read from. */
  predicate ParsedFrom(g: Game, platformPath: Path, platformName: string) {
    g.game != [] && g.file != [] && g.platform == platformName && g.platformPath == Some(platformPath)
  }

  /** One blank-line-separated block: stripped, and skipped when empty or a
      `#` comment. */
  function BlockGame(block: string, platformPath: Path, platformName: string): (r: Option<Game>)
  {
    var b := Strip(block);
    if b == [] || b[0] == '#' then None else ParseGameBlock(b, platformPath, platformName)
  }

  /** The games of the blocks, in block order. */
  function ParseBlocks(blocks: seq<string>, platformPath: Path, platformName: string): (games: seq<Game>)
    ensures |games| <= |blocks|
    ensures forall g <- games :: ParsedFrom(g, platformPath, platformName)
  {
    if blocks == [] then []
    else
      var rest := ParseBlocks(blocks[1..], platformPath, platformName);
      match BlockGame(blocks[0], platformPath, platformName)
      case None => rest
      case Some(g) => [g] + rest
  }

  /** The header text and the game text: the split falls at the first line
      that starts with `game:` (any case, optional space before the colon). */
  function SplitHeader(content: string): (r: (string, string))
    ensures Trimmed(r.0)
    ensures FirstLine(content, GameStart).None? ==> r == (Strip(content), [])
    ensures FirstLine(content, GameStart).Some? ==> var p := FirstLine(content, GameStart).value;
      r == (Strip(content[..p]), content[p..]) && GameKeyAt(r.1)
  {
    match FirstLine(content, GameStart)
    case None => (Strip(content), [])
    case Some(p) => (Strip(content[..p]), content[p..])
  }

  /** The parse of a metadata file's text: its header and its games. */
  function ParsePlatformText(content: string, platformPath: Path, platformName: string): (r: (string, seq<Game>))
  {
    var (header, gameText) := SplitHeader(content);
    (header, ParseBlocks(SplitOn(gameText, "\n\n"), platformPath, platformName))
  }

  /** MetadataParser.parse_platform_directory: fails when the metadata file or
      the media folder is missing or the file cannot be read. */
  function ParsePlatformDirectory(fs: FileSystem, dir: Path): (r: Result<(string, seq<Game>)>)
    reads fs
    ensures r.Ok? <==> fs.Exists(Child(dir, MetadataFileName)) && fs.Exists(Child(dir, MediaFolderName))
                       && fs.ReadText(Child(dir, MetadataFileName)).Ok?
    ensures r.Ok? ==> r.value == ParsePlatformText(fs.files[Child(dir, MetadataFileName)], dir, Name(dir))
  {
    var metadata := Child(dir, MetadataFileName);
    if !fs.Exists(metadata) then Err("metadata file not found")
    else if !fs.Exists(Child(dir, MediaFolderName)) then Err("media folder not found")
    else match fs.ReadText(metadata)
      case Err(e) => Err("failed to parse metadata file: " + e)
      case Ok(content) => Ok(ParsePlatformText(content, dir, Name(dir)))
  }

  /* ---------------------------------------------------------------------- */
  /* Header fields                                                           */
  /* ---------------------------------------------------------------------- */

  /** The header's lines without the comment lines (those starting with `#`
      once stripped); blank lines are kept. */
  function NonCommentLines(lines: seq<string>): (r: seq<string>)
    ensures |r| <= |lines|
  {
    if lines == [] then []
    else if StartsWith(Strip(lines[0]), "#") then NonCommentLines(lines[1..])
    else [lines[0]] + NonCommentLines(lines[1..])
  }

  /** The text the header regex runs over: the header's lines without the
      comment lines, joined by line breaks. */
  function HeaderScanText(headerText: string): string {
    Join(NonCommentLines(SplitLines(headerText)), "\n")
  }

  /** MetadataParser.parse_header_fields */
  function ParseHeaderFields(headerText: string): (fields: Dict)
    ensures UniqueKeys(fields)
  {
    FromPairs(ScanFields(HeaderScanText(headerText), true))
  }

  /** The header's field dict holds a key exactly when the header regex
      matches a field with that key, and then the value matched last: a
      repeated key keeps its last value. */
  lemma ParseHeaderFieldsGet(headerText: string, k: string)
    ensures Get(ParseHeaderFields(headerText), k) == LastValue(ScanFields(HeaderScanText(headerText), true), k)
  {
    FromPairsGet(ScanFields(HeaderScanText(headerText), true), k);
  }

  /** The value merge gives a required field the target lacks: the source's,
      else the platform name (or "Unknown Collection") for `collection`, else "". */
  function RequiredValue(source: Dict, f: string, platformName: string): string {
    match Get(source, f)
    case Some(v) => v
    case None =>
      if f == "collection" then (if platformName != [] then platformName else UnknownCollection)
      else []
  }

  /** The first loop of merge_header_fields: fill each missing required field. */
  function FillRequired(merged: Dict, source: Dict, names: seq<string>, platformName: string): (r: Dict)
    ensures UniqueKeys(merged) ==> UniqueKeys(r)
    decreases |names|
  {
    if names == [] then merged
    else
      var f := Lower(names[0]);
      var next := if HasKey(merged, f) then merged else Put(merged, f, RequiredValue(source, f, platformName));
      FillRequired(next, source, names[1..], platformName)
  }

  /** `key: value` with continuation lines indented by two spaces. */
  function RenderField(key: string, value: string): string {
    key + ": " + Indent(value)
  }

  /** The required fields as written: each in the caller's order and spelling. */
  function RequiredLines(names: seq<string>, merged: Dict): (r: seq<Entry>)
    ensures |r| <= |names|
  {
    if names == [] then []
    else
      var rest := RequiredLines(names[1..], merged);
      match Get(merged, Lower(names[0]))
      case Some(v) => [Entry(names[0], v)] + rest
      case None => rest
  }

  /** The other fields as written: those not among the required ones, in dict order. */
  function OtherLines(merged: Dict, processed: set<string>): (r: seq<Entry>)
    ensures |r| <= |merged|
  {
    if merged == [] then []
    else
      var rest := OtherLines(merged[1..], processed);
      if merged[0].key in processed then rest else [merged[0]] + rest
  }

  /** The lowercased names of the required fields. */
  function LowerAll(names: seq<string>): set<string> {
    set i | 0 <= i < |names| :: Lower(names[i])
  }

  /** The merged field dict of merge_header_fields. */
  function MergeFields(target: string, source: string, names: seq<string>, platformName: string): (merged: Dict)
    ensures UniqueKeys(merged)
  {
    FillRequired(ParseHeaderFields(target), ParseHeaderFields(source), names, platformName)
  }

  /** The fields merge_header_fields writes, in the order it writes them. */
  function MergedEntries(target: string, source: string, names: seq<string>, platformName: string): seq<Entry> {
    var merged := MergeFields(target, source, names, platformName);
    RequiredLines(names, merged) + OtherLines(merged, LowerAll(names))
  }

  /** MetadataParser.merge_header_fields: the target header completed with the
      required fields, rendered one `key: value` per line. */
  function MergeHeaderFields(target: string, source: string, names: seq<string>, platformName: string): string {
    var entries := MergedEntries(target, source, names, platformName);
    Join(seq(|entries|, i requires 0 <= i < |entries| => RenderField(entries[i].key, entries[i].value)), "\n")
  }

  /* ---------------------------------------------------------------------- */
  /* Writing                                                                 */
  /* ---------------------------------------------------------------------- */

  /** One written line: `key: value` and a line break. */
  function FieldLine(key: string, value: string): string {
    key + ": " + value + "\n"
  }

  /** An optional line: present only for a non-empty value. */
  function OptionalLine(key: string, value: string): string {
    if value != [] then FieldLine(key, value) else []
  }

  /** The lines write_metadata emits for one game, each ending in '\n'; the
      description is stripped and its continuation lines indented. */
  function RenderGame(g: Game): string {
    EntryHead(g)
    + OptionalLine("sort-by", g.sortBy)
    + OptionalLine("developer", g.developer)
    + DescriptionLine(g.description)
  }

  /** The two lines every game has. */
  function EntryHead(g: Game): string {
    FieldLine("game", g.game) + FieldLine("file", g.file)
  }

  /** The description line: present for a non-empty description, which is
      stripped and has its continuation lines indented. */
  function DescriptionLine(description: string): string {
    if description != [] then FieldLine("description", Indent(Strip(description))) else []
  }

  /** The rendered entries of the games, in order. */
  function RenderAll(games: seq<Game>): (r: seq<string>)
    ensures |r| == |games|
    ensures forall i {:trigger r[i]} :: 0 <= i < |games| ==> r[i] == RenderGame(games[i])
  {
    if games == [] then [] else RenderAll(games[..|games| - 1]) + [RenderGame(games[|games| - 1])]
  }

  /** The header and a blank line when the header is non-empty, then the games
      separated by blank lines. */
  function Serialize(header: string, games: seq<Game>): string {
    HeaderPart(header) + Join(RenderAll(games), "\n\n")
  }

  function HeaderPart(header: string): string {
    if header != [] then header + "\n\n" else []
  }

  const WriteFailure := "failed to write metadata: "

  /** write_metadata can write output on a disk with these files and
      directories: the folders above it can be made and the file opened for
      writing, since it is neither faulty nor a directory. */
  predicate CanWriteMetadata(faulty: set<Path>, files: map<Path, string>, dirs: set<Path>, output: Path) {
    && CanMakeDirs(faulty, files, Parent(output))
    && output !in faulty
    && output !in dirs + Ancestors(Parent(output))
  }

  /** The text write_metadata writes, built line by line as the source writes it. */
  method RenderMetadata(games: seq<Game>, header: string) returns (text: string)
    ensures text == Serialize(header, games)
  {
    text := [];
    if header != [] {
      text := text + header + "\n\n";
    }
    ghost var prefix := text;
    assert prefix == HeaderPart(header);
    for i := 0 to |games|
      invariant text == prefix + Join(RenderAll(games[..i]), "\n\n")
    {
      if i > 0 {
        text := text + "\n\n";
      }
      var block := RenderGameLines(games[i]);
      SerializeStep(prefix, games, i);
      text := text + block;
    }
    assert games[..|games|] == games;
  }

  /** One more game entry extends the rendered text by a separator (after
      the first entry) and the entry's lines. */
  lemma SerializeStep(prefix: string, games: seq<Game>, i: nat)
    requires i < |games|
    ensures prefix + Join(RenderAll(games[..i + 1]), "\n\n")
      == prefix + Join(RenderAll(games[..i]), "\n\n") + (if i > 0 then "\n\n" else []) + RenderGame(games[i])
  {
    var before := RenderAll(games[..i]);
    var done := Join(before, "\n\n");
    var block := RenderGame(games[i]);
    assert games[..i + 1][..i] == games[..i];
    assert RenderAll(games[..i + 1]) == before + [block];
    if i > 0 {
      JoinSnoc(before, block, "\n\n");
      AppendAssoc(prefix, done + "\n\n", block);
      AppendAssoc(prefix, done, "\n\n");
    } else {
      assert Join(RenderAll(games[..i + 1]), "\n\n") == block;
      assert done == [];
    }
  }

  lemma AppendAssoc(a: string, b: string, c: string)
    ensures a + b + c == a + (b + c)
  {
  }

  /** The lines of one game entry. */
  method RenderGameLines(g: Game) returns (block: string)
    ensures block == RenderGame(g)
  {
    block := FieldLine("game", g.game);
    block := block + FieldLine("file", g.file);
    ghost var sofar := EntryHead(g);
    if g.sortBy != [] {
      var line := FieldLine("sort-by", g.sortBy);
      block := block + line;
    }
    assert block == sofar + OptionalLine("sort-by", g.sortBy);
    sofar := sofar + OptionalLine("sort-by", g.sortBy);
    if g.developer != [] {
      var line := FieldLine("developer", g.developer);
      block := block + line;
    }
    assert block == sofar + OptionalLine("developer", g.developer);
    sofar := sofar + OptionalLine("developer", g.developer);
    if g.description != [] {
      var desc := Indent(Strip(g.description));
      var line := FieldLine("description", desc);
      block := block + line;
    }
    assert block == sofar + DescriptionLine(g.description);
  }

  /** MetadataParser.write_metadata: create the parent directories and write
      the file; a failure is reported (the source raises), never a `false`. */
  method WriteMetadata(fs: FileSystem, games: seq<Game>, output: Path, header: string) returns (r: Outcome)
    modifies fs
    ensures r.Pass? <==> CanWriteMetadata(fs.faulty, old(fs.files), old(fs.dirs), output)
    ensures r.Pass? ==> fs.files == old(fs.files)[output := Serialize(header, games)]
    ensures fs.dirs == old(fs.dirs) || fs.dirs == old(fs.dirs) + Ancestors(Parent(output))
    ensures r.Pass? ==> fs.dirs == old(fs.dirs) + Ancestors(Parent(output))
    ensures r.Fail? ==> fs.files == old(fs.files) && StartsWith(r.error, WriteFailure)
  {
    var made := fs.MakeDirs(Parent(output));
    if made.Fail? {
      assert (WriteFailure + made.error)[..|WriteFailure|] == WriteFailure;
      return Fail(WriteFailure + made.error);
    }
    var text := RenderMetadata(games, header);
    var written := fs.WriteText(output, text);
    if written.Fail? {
      assert (WriteFailure + written.error)[..|WriteFailure|] == WriteFailure;
      return Fail(WriteFailure + written.error);
    }
    return Pass;
  }

  /* ---------------------------------------------------------------------- */
  /* Platform directories                                                    */
  /* ---------------------------------------------------------------------- */

  /** A directory holding both the metadata file and the media folder. */
  predicate IsPlatformDir(fs: FileSystem, d: Path)
    reads fs
  {
    d in fs.dirs && fs.Exists(Child(d, MetadataFileName)) && fs.Exists(Child(d, MediaFolderName))
  }

  /** The platform directories among the entries of root, in listing order. */
  function PlatformDirs(fs: FileSystem, root: Path, listing: seq<string>): (r: seq<Path>)
    reads fs
    ensures |r| <= |listing|
    ensures forall d :: d in r <==> exists i :: 0 <= i < |listing| && d == Child(root, listing[i]) && IsPlatformDir(fs, d)
  {
    if listing == [] then []
    else
      var d := Child(root, listing[0]);
      var rest := PlatformDirs(fs, root, listing[1..]);
      assert forall i :: 1 <= i < |listing| ==> listing[i] == listing[1..][i - 1];
      if IsPlatformDir(fs, d) then [d] + rest else rest
  }

  /** Over a faithful listing of root, PlatformDirs holds every platform
      directory directly under root, and each once. */
  lemma PlatformDirsComplete(fs: FileSystem, root: Path, listing: seq<string>)
    requires fs.Listing(root, listing)
    ensures forall d :: d in PlatformDirs(fs, root, listing) <==>
      |d| == |root| + 1 && d[..|root|] == root && IsPlatformDir(fs, d)
    ensures forall a, b :: 0 <= a < b < |PlatformDirs(fs, root, listing)| ==>
      PlatformDirs(fs, root, listing)[a] != PlatformDirs(fs, root, listing)[b]
  {
    var r := PlatformDirs(fs, root, listing);
    forall d | d in r
      ensures |d| == |root| + 1 && d[..|root|] == root && IsPlatformDir(fs, d)
    {
      var i :| 0 <= i < |listing| && d == Child(root, listing[i]) && IsPlatformDir(fs, d);
      assert listing[i] != "";
    }
    forall d | |d| == |root| + 1 && d[..|root|] == root && IsPlatformDir(fs, d)
      ensures d in r
    {
      ListedEntry(fs, root, listing, d);
    }
    PlatformDirsDistinct(fs, root, listing);
  }

  /** An entry directly under root is named in a faithful listing of root. */
  lemma ListedEntry(fs: FileSystem, root: Path, listing: seq<string>, d: Path)
    requires fs.Listing(root, listing)
    requires |d| == |root| + 1 && d[..|root|] == root && fs.Exists(d)
    ensures exists i :: 0 <= i < |listing| && d == Child(root, listing[i])
  {
    assert d[|root|] in listing;
    var i :| 0 <= i < |listing| && listing[i] == d[|root|];
    assert d == root + [listing[i]];
  }

  /** Distinct names give distinct platform directories. */
  lemma {:induction false} PlatformDirsDistinct(fs: FileSystem, root: Path, listing: seq<string>)
    requires forall i, j :: 0 <= i < j < |listing| ==> listing[i] != listing[j]
    requires forall i :: 0 <= i < |listing| ==> listing[i] != ""
    ensures forall a, b :: 0 <= a < b < |PlatformDirs(fs, root, listing)| ==>
      PlatformDirs(fs, root, listing)[a] != PlatformDirs(fs, root, listing)[b]
  {
    if listing != [] {
      var d := Child(root, listing[0]);
      var rest := PlatformDirs(fs, root, listing[1..]);
      PlatformDirsDistinct(fs, root, listing[1..]);
      assert d !in rest;
    }
  }

  /** MetadataParser.find_platform_directories over the entries of root as the
      host enumerates them (no sorting); fails when root is not a readable
      directory, and otherwise finds every platform directory under root once. */
  method FindPlatformDirectories(fs: FileSystem, root: Path, listing: seq<string>) returns (r: Result<seq<Path>>)
    requires root !in fs.faulty && root in fs.dirs ==> fs.Listing(root, listing)
    ensures r.Err? <==> root in fs.faulty || root !in fs.dirs
    ensures r.Ok? ==> r.value == PlatformDirs(fs, root, listing)
    ensures r.Ok? ==> forall d :: d in r.value <==> |d| == |root| + 1 && d[..|root|] == root && IsPlatformDir(fs, d)
    ensures r.Ok? ==> forall a, b :: 0 <= a < b < |r.value| ==> r.value[a] != r.value[b]
  {
    if root in fs.faulty || root !in fs.dirs {
      return Err(NoSuchFile);
    }
    PlatformDirsComplete(fs, root, listing);
    var found: seq<Path> := [];
    var i := |listing|;
    while i > 0
      invariant 0 <= i <= |listing|
      invariant found == PlatformDirs(fs, root, listing[i..])
    {
      i := i - 1;
      var item := Child(root, listing[i]);
      assert listing[i..][1..] == listing[i + 1..];
      if IsPlatformDir(fs, item) {
        found := [item] + found;
      }
    }
    return Ok(found);
  }
}
