# pegasus-game-filter core, modelled in Dafny

The model covers the core of pegasus-game-filter. The tool curates a ROM library that
Pegasus frontends read. Each platform directory holds a `metadata.pegasus.txt`
file and a `media/` folder. The file starts with a header of directory-wide
`key: value` fields. Blank-line-separated game blocks follow it.

There are three parts:

- **MetadataParser** (`core/metadata_parser.py`). It reads a platform
  directory into a header and a list of games and merges required header
  fields from another platform's header. It writes a metadata file back and
  finds the platform directories under a ROM root. The Python code scans with
  regular expressions under `re.MULTILINE | re.DOTALL | re.IGNORECASE`. The
  model writes each regex out as the character scan it performs:
  - `KeyRunLen`, `KeyColon`, `FirstLine` and `ValueEnd` follow the key
    pattern, the `^` anchor and the lazy value group with its lookahead;
  - `ScanFields` follows `re.finditer`.
- **TaskQueue** (`core/task_system.py`). This is the ordered queue of staged
  Add, Remove and Update tasks, one per (display name, platform) identity. It
  is a class whose `tasks` field its methods reassign.
- **GameManager** (`core/game_manager.py`). This is the in-memory catalog:
  platform name to games, and platform name to header text. It has the
  queries over the catalog and the batch executor. The executor applies every
  queued task to the disk and to the catalog, records each task's outcome
  and then empties the queue. The class keeps `order`, the insertion order of
  the `platforms` dict, because `get_all_games` and `search_games` visit the
  platforms in that order.

Supporting modules:

- `Wrappers` holds Option, Result and a pass/fail Outcome.
- `Text` holds the Python string methods the code uses: `strip`, `split`,
  `join`, `splitlines`, ASCII `lower`, substring test, and the description
  indent.
- `Dict` is a Python dict as an insertion-ordered association list.
- `FileSys` is the disk as pathlib and shutil see it. It is a class holding a
  file map, a directory set and a set of faulty paths on which every
  operation fails.

The main properties proved:

- **The write-then-parse round trip.**
  `MetadataRoundTrip.WriteThenParse` shows that `parse_platform_directory`
  reads the text `write_metadata` produces back as the same header, stripped
  of surrounding whitespace as `parse_platform_directory` strips it, and the
  same games. The description comes back stripped line by line. This holds
  for every header and game list the line format can carry, including a
  merged header whose last field is empty and so ends in a space (see the
  `MetadataRoundTrip.WriteThenParse` and line-separator entries under
  "Left out").
- **The header merge.** It never overwrites a field the target has. It fills
  the required fields from the source or the fallbacks. It writes the
  required fields first, in the caller's order, and every other field once.
- **Task queue identities.** Staging keeps at most one task per identity.
- **The batch executor.** Every task ends as Success, or as Failed with an
  error text. The summary counts match the statuses, and the queue ends
  empty.
- **Search.** `search_games` returns exactly the matching games, in catalog
  order.

The model follows the code on these points:

- An Add stores the source game's fields unchanged (`_create_game_copy`,
  `core/game_manager.py:209-219`), not a trimmed copy.
- `find_platform_directories` does not sort. The model takes the host's
  `iterdir()` listing as a parameter. `FileSystem.Listing` requires it to name
  each entry of the root once, in whatever order the host gives.
- `write_metadata` raises on a failure and never returns `false`. The model
  returns a failed Outcome whose text starts with the write-failure prefix.
- `load_all_platforms` does not skip a platform directory that fails to
  parse. The exception propagates, and the load stops with the platforms read
  so far.
- The `collection` fallback is the platform name, or "Unknown Collection"
  when the name is empty (`core/metadata_parser.py:219-220`).
- The merged header is stored only when it differs from the current one
  (`core/game_manager.py:146-147`).

## Model

| member | source | states |
|---|---|---|
| TaskSystem.FindTask | core/task_system.py:48-49 | the position of the first task whose game has the given display name and platform; no earlier task has that identity; None exactly when no task has it |
| TaskSystem.Staged | core/task_system.py:45-58 | add_task on a queue value: the first task with g's identity takes the new type, status Pending and an empty error, keeps its place and its original game, and every other task is unchanged; without one, a Pending task for g is appended |
| TaskSystem.Without | core/task_system.py:60-63 | remove_task on a queue value: a task is kept exactly when it is in the queue and its identity differs from g's |
| TaskSystem.TaskQueue.constructor | core/task_system.py:41-43 | a new queue is empty |
| TaskSystem.TaskQueue.AddTask | core/task_system.py:45-58 | the search loop leaves the queue equal to Staged of the old queue; a queue with one task per identity keeps one task per identity |
| TaskSystem.TaskQueue.RemoveTask | core/task_system.py:60-63 | the queue becomes Without of the old queue; a queue with one task per identity keeps one task per identity |
| TaskSystem.TaskQueue.Clear | core/task_system.py:65-67 | the queue is empty |
| TaskSystem.TaskQueue.GetTaskCount | core/task_system.py:69-78 | the counting loop returns the number of tasks of each type, and the three counts add up to the queue length |
| TaskSystem.TaskQueue.HasPendingTasks | core/task_system.py:80-82 | true exactly when the queue is non-empty, whatever the statuses; a Pending task implies true |
| TaskSystem.TaskQueue.SetStatus | core/game_manager.py:70-86 | the status and error text of the task at one position are replaced; every other task and field is kept |
| TaskSystem.CountsCoverQueue | core/task_system.py:69-78 | every task is counted under exactly one type |
| TaskSystem.StagedKeepsUnique | core/task_system.py:45-58 | add_task keeps the identities in the queue distinct |
| TaskSystem.StagedHoldsTask | core/task_system.py:45-58 | after add_task, exactly one task carries g's identity, with the requested type, Pending status and an empty error |
| TaskSystem.WithoutAppend | core/task_system.py:62-63 | the filter keeps the relative order of the remaining tasks: filtering a concatenation filters each part |
| TaskSystem.WithoutKeepsUnique | core/task_system.py:60-63 | remove_task keeps the identities in the queue distinct |
| MetadataFormat.Stem | core/metadata_parser.py:33 | Path(file).stem: a prefix of the name that is non-empty for a non-empty name; it differs from the name only by cutting a suffix at the last dot, when that dot is neither the first nor the last character |
| MetadataFormat.MediaKey | core/metadata_parser.py:30-36 | the stem of a non-empty file name, else the display name, else none; never an empty key |
| MetadataFormat.IsFileMissing | core/metadata_parser.py:21-28 | a game without a platform directory or without a file name counts as missing; otherwise the ROM is missing when its path does not exist |
| MetadataFormat.FirstExisting | core/metadata_parser.py:46-50 | the candidate with the first suffix, in priority order, that exists; none exactly when no candidate exists |
| MetadataFormat.AssetPath | core/metadata_parser.py:38-78 | get_logo_path, get_boxfront_path and get_video_path: none without a platform directory or media key; otherwise the first existing asset file in media/<key>, and none only when no suffix exists |
| MetadataParser.KeyRunLen | core/metadata_parser.py:141 | `[a-zA-Z0-9_-]+` is greedy: the run covers key characters only and stops before a non-key character |
| MetadataParser.KeyColon | core/metadata_parser.py:141 | `[a-zA-Z0-9_-]+\s*:`: a non-empty key run, then only whitespace, then the colon at the returned index |
| MetadataParser.FirstLine | core/metadata_parser.py:107 | `^pattern` under MULTILINE: the result is a line start where the pattern matches, and no earlier line start matches; none when no line start matches |
| MetadataParser.ValueEnd | core/metadata_parser.py:141 | the lazy group `(.*?)` stops at the first field-break lookahead: no break occurs between the start and the result |
| MetadataParser.FieldMatch | core/metadata_parser.py:145-146 | every matched key is a non-empty key of key characters, lowercased; the scan resumes on strictly shorter text |
| MetadataParser.ScanFields | core/metadata_parser.py:141-150 | every field key found is a lowercased regex key |
| MetadataParser.Unquote | core/metadata_parser.py:155-160 | a value of length at least 2 wrapped in double quotes loses them and is stripped again; any other value is unchanged |
| MetadataParser.ParseGameBlock | core/metadata_parser.py:132-171 | a game is returned only with a non-empty display name and file name, and it carries the platform name and directory it was read from |
| MetadataParser.ParseGameBlockYields | core/metadata_parser.py:144-171 | a block yields a game exactly when its last `game` value and its unquoted last `file` value are non-empty; the game holds the last value of each field (later keys overwrite earlier ones), and otherwise the block is dropped silently |
| MetadataParser.ParseBlocks | core/metadata_parser.py:115-126 | at most one game per block, each valid and tied to the directory |
| MetadataParser.SplitHeader | core/metadata_parser.py:105-113 | without a `^game\s*:` line the whole stripped text is the header and there are no games; with one, the header is the stripped text before the first such line and the game text starts there |
| MetadataParser.ParsePlatformDirectory | core/metadata_parser.py:87-130 | fails exactly when the metadata file or the media folder is missing or the file cannot be read; otherwise it is the parse of the file's text |
| MetadataParser.ParseHeaderFields | core/metadata_parser.py:173-202 | the header's field dict has distinct keys |
| MetadataParser.ParseHeaderFieldsGet | core/metadata_parser.py:173-202 | the value read for a key is the value of the LAST regex match of that key over the header with its comment lines removed (a later field overwrites an earlier one); a key that never matches is absent |
| HeaderFields.IndentedKeyDropped | core/metadata_parser.py:181-202 | a one-line field followed by an indented `key: value` line gives a dict holding the first field alone: the lookahead `\n+\s*key:` ends the first value at the line break, and `^` does not match the indented key, so the second line is lost |
| MetadataParser.FillRequired | core/metadata_parser.py:211-222 | the fill loop keeps the keys distinct |
| MetadataParser.MergeFields | core/metadata_parser.py:207-222 | the merged dict has distinct keys |
| MetadataParser.RenderAll | core/metadata_parser.py:269-284 | one rendered entry per game, in order, entry i rendering game i |
| MetadataParser.RenderMetadata | core/metadata_parser.py:264-284 | the line-by-line writer produces the header, a blank line when the header is non-empty, then the game entries separated by blank lines |
| MetadataParser.SerializeStep | core/metadata_parser.py:269-271 | each further game adds a separating blank line (after the first game) and that game's lines |
| MetadataParser.RenderGameLines | core/metadata_parser.py:273-284 | the entry is `game` and `file`, then `sort-by` and `developer` when non-empty, then the stripped description with indented continuation lines when non-empty, each on its own line |
| MetadataParser.WriteMetadata | core/metadata_parser.py:258-288 | succeeds exactly when CanWriteMetadata holds: the parent can be made (not faulty, no file at it or above it), the file is not faulty and is not a directory (nor one of the parent's directories); then the parent directories exist and the file holds the serialized text, with no other file changed; on failure no file changed and the error carries the write-failure prefix |
| MetadataParser.PlatformDirs | core/metadata_parser.py:290-302 | a path is kept exactly when it is a listed entry of the root that is a directory holding the metadata file and the media folder; the listing order is kept |
| MetadataParser.PlatformDirsComplete | core/metadata_parser.py:294-300 | given the root's listing, the result holds exactly the entries of the root that are platform directories, each once |
| MetadataParser.PlatformDirsDistinct | core/metadata_parser.py:294-300 | entries listed once are found once |
| MetadataParser.FindPlatformDirectories | core/metadata_parser.py:290-302 | fails exactly when the root cannot be listed; otherwise the loop returns PlatformDirs, which holds every platform directory directly under the root, each once |
| Dict.FromPairs | core/metadata_parser.py:144-150 | building a dict by assignments gives distinct keys |
| Dict.Put | core/metadata_parser.py:216 | `d[k] = v`: k maps to v, every other key keeps its value, an existing key keeps its place, a new key is appended, and distinct keys stay distinct |
| Dict.FromPairsGet | core/metadata_parser.py:150 | the dict built by repeated assignment maps a key to the last value assigned to it |
| HeaderMerge.FillRequiredGet | core/metadata_parser.py:211-222 | after the fill loop, a key the dict held keeps its value, a required key it lacked gets the required value, and no other key appears |
| HeaderMerge.MergeFieldsGet | core/metadata_parser.py:204-222 | the merge never changes a value the target header has; a required field the target lacks takes the source's value or the fallback; nothing else is added |
| HeaderMerge.RequiredValueFallback | core/metadata_parser.py:217-222 | with the source lacking the field too, `collection` falls back to the platform name, or to "Unknown Collection" for an empty name; any other field falls back to "" |
| HeaderMerge.MergeFieldsHasRequired | core/metadata_parser.py:211-222 | after the merge, every required field is present |
| HeaderMerge.RequiredLinesShape | core/metadata_parser.py:228-241 | with every required field present, the first lines are one per requested name, in the caller's order and spelling, carrying the merged value of its lowercased key |
| HeaderMerge.OtherLinesMembers | core/metadata_parser.py:243-254 | the remaining lines are exactly the merged fields whose key is not required |
| HeaderMerge.OtherLinesUnique | core/metadata_parser.py:243-254 | each remaining field is written once |
| HeaderMerge.MergedEntriesShape | core/metadata_parser.py:224-256 | the written header is the required fields first, in order, then each other merged field once |
| HeaderMerge.IndentSplit | core/metadata_parser.py:233-238 | joining the value's lines with "\n  " is the same as indenting every line break by two spaces |
| HeaderMerge.NonCommentLinesMembers | core/metadata_parser.py:179-185 | the comment filter drops exactly the lines whose stripped text starts with `#` and keeps blank lines |
| MetadataRoundTrip.WriteThenParse | core/metadata_parser.py:87-130 | parsing the text write_metadata writes gives back the header with its surrounding whitespace stripped, and every game, in order, with the description stripped line by line and the platform taken from the directory |
| MetadataRoundTrip.ParseRendered | core/metadata_parser.py:115-126 | the written game entries split on blank lines and parse back into the same games, in order |
| MetadataRoundTrip.ParseRenderedStep | core/metadata_parser.py:115-126 | the first written entry parses back as its game, ahead of the games of the rest |
| MetadataRoundTrip.SplitHeaderGames | core/metadata_parser.py:105-113 | a written header followed by game entries splits back into that header, stripped, and the game text |
| MetadataRoundTrip.SplitHeaderAlone | core/metadata_parser.py:111-113 | a written header without games splits back into the header, stripped, and no game text |
| MetadataRoundTrip.HeaderHasNoGame | core/metadata_parser.py:107 | no line of a written header, nor the blank line after it, starts with `game\s*:` |
| MetadataRoundTrip.StripHeaderPart | core/metadata_parser.py:109 | stripping the header with its blank line gives what stripping the header alone gives |
| MetadataRoundTrip.ScanFieldLines | core/metadata_parser.py:141-150 | the field regex over written field lines finds exactly those fields, in order, with cleaned values |
| MetadataRoundTrip.FieldMatchOf | core/metadata_parser.py:141-150 | one written field line, followed by the end of the block or by another field line, matches as that field, and the scan resumes at the next line |
| MetadataRoundTrip.ValueEndOf | core/metadata_parser.py:141 | the lazy value group of a written field ends right after its value, since its indented continuation lines cannot start a key |
| MetadataRoundTrip.KeyColonOf | core/metadata_parser.py:141 | a key followed by a colon is matched as that key |
| MetadataRoundTrip.CleanSingle | core/metadata_parser.py:147-150 | a trimmed one-line value reads back unchanged |
| MetadataRoundTrip.CleanIndented | core/metadata_parser.py:147-150 | a description written stripped with indented continuation lines reads back as the line-by-line stripped description |
| MetadataRoundTrip.SplitIndent | core/metadata_parser.py:282-283 | indenting a description splits into the same lines, each after the first prefixed by two spaces |
| MetadataRoundTrip.RenderGameBlock | core/metadata_parser.py:273-284 | a game's written lines are its field lines joined by line breaks, plus a final line break |
| MetadataRoundTrip.CleanedGameEntries | core/metadata_parser.py:147-150 | cleaning the written fields of a writable game gives the fields the parser reads back |
| MetadataRoundTrip.ReadEntriesValues | core/metadata_parser.py:152-169 | the fields read back hold the game's own name, file, sort key and developer, and its line-stripped description |
| MetadataRoundTrip.FieldsOfBlock | core/metadata_parser.py:141-150 | the fields found in a written game block are the game's fields with cleaned values |
| MetadataRoundTrip.ParseBlockOf | core/metadata_parser.py:132-171 | a block whose fields are those of a game with a name and an unquoted file name parses as that game, tied to the directory |
| MetadataRoundTrip.BlockGameOf | core/metadata_parser.py:119-126 | a written block, padded by at most one line break on each side, survives stripping and parses as the game it was written from |
| MetadataRoundTrip.SplitAfterBlock | core/metadata_parser.py:116 | the first blank line after a written block ends that block |
| Catalog.Select | core/game_manager.py:240-245 | a game is selected exactly when it is in the list and its lowercased name, platform or developer contains the keyword |
| Catalog.FirstSame | core/game_manager.py:227-231 | the first entry with the same file name or the same display name; none before it; none when there is no such entry |
| Catalog.Upserted | core/game_manager.py:221-233 | the new game is in the list, which is at most one entry longer |
| Catalog.UpsertGame | core/game_manager.py:225-233 | the replace-or-append loop computes Upserted |
| Catalog.UpsertedShape | core/game_manager.py:221-233 | only the first same entry is replaced; the new game is appended after the unchanged list exactly when no entry is the same |
| Catalog.RemoveNamed | core/game_manager.py:185-189 | an entry is kept exactly when its display name differs |
| Catalog.RemoveNamedAppend | core/game_manager.py:186-189 | the filter keeps the relative order: filtering a concatenation filters each part |
| Catalog.CreateGameCopy | core/game_manager.py:209-219 | the copy points at the destination directory, and every other field equals the source's |
| Catalog.HeadersAfterMerge | core/game_manager.py:136-150 | a source directory that fails to parse leaves the headers unchanged (the failure is only a warning); no other platform's header changes |
| Catalog.StoreIfChanged | core/game_manager.py:146-147 | the platform's header reads back as the merged header, other platforms are untouched, and at most that key is added |
| Catalog.GameManager.constructor | core/game_manager.py:15-19 | empty catalog, empty headers and an empty task queue |
| Catalog.GameManager.LoadAllPlatforms | core/game_manager.py:21-33 | the maps are rebuilt; a root that cannot be listed leaves them empty; the load succeeds exactly when the root can be listed and every platform directory parses, and then every platform directory under the root is loaded; the platform order is the first-seen order of the directory names up to the first failing directory, and each loaded platform is the parse of the last such directory of its name |
| Catalog.GameManager.LoadDirectories | core/game_manager.py:25-31 | the loop succeeds exactly when every directory parses, and then every directory name is loaded; the platform order is the first-seen order of the names of the directories before the first failing one, and each platform holds the parse of the last of those directories with its name |
| Catalog.LoadEach | core/game_manager.py:27-31 | the names stored are the first-seen names of the directories before the first failing one, in that order; each stored platform holds the parse of the last of those directories with its name; the failure reported is that of the first failing directory, and none exactly when every directory parses |
| Catalog.StoreLoaded | core/game_manager.py:28-31 | one loop step: a new name joins the end of the order, a known name keeps its place, and the directory becomes the last one loaded under its name |
| Catalog.FirstErr | core/game_manager.py:27-31 | the number of directories the loop gets through: every parse before it succeeds and the parse at it fails |
| Catalog.AllParsed | core/game_manager.py:27-31 | the loop gets through every directory exactly when every directory parses |
| Catalog.ParseAll | core/game_manager.py:29 | the parse of each directory, position by position |
| Catalog.DistinctNamesUnique | core/game_manager.py:29-30 | dict keys in insertion order are distinct |
| Catalog.DistinctNamesMembers | core/game_manager.py:29-30 | a name is a dict key exactly when some directory before the stopping point has it |
| Catalog.NamesCover | core/game_manager.py:29-30 | after a complete loop, every directory's name is a key |
| Catalog.GameManager.GetAllGames | core/game_manager.py:35-40 | the platforms' game lists concatenated in dict order |
| Catalog.GameManager.HasGame | core/game_manager.py:53-59 | true exactly when g's platform is known and one of its games has g's file name or display name |
| Catalog.GameManager.SearchGames | core/game_manager.py:235-247 | the matching games of the catalog, in platform-then-list order, for the lowercased keyword |
| Catalog.SearchPlatform | core/game_manager.py:241-245 | the inner loop returns the matching games of one platform, in order |
| Catalog.SelectAppend | core/game_manager.py:240-245 | searching a concatenation searches each part |
| Catalog.FlattenMembers | core/game_manager.py:35-40 | the flattened catalog holds exactly the games of the listed platforms |
| Catalog.SearchSpec | core/game_manager.py:235-247 | a game is found exactly when it belongs to some platform and matches the lowercased keyword |
| Catalog.GameManager.Upsert | core/game_manager.py:221-233 | the platform's list becomes Upserted of the old list (an empty list for a new platform, which joins the end of the dict order); nothing else changes |
| Catalog.GameManager.MergeSourceHeader | core/game_manager.py:136-150 | the headers become HeadersAfterMerge of the source directory's parse; the games are untouched |
| Catalog.GameManager.AddToCatalog | core/game_manager.py:152-158 | the platform gets a list if it had none, and then the destination copy of the game is upserted into it |
| Catalog.GameManager.RecordAdd | core/game_manager.py:136-163 | the headers become HeadersAfterMerge of the source directory's parse and the destination copy is upserted; it succeeds exactly when the metadata file can be written (CanWriteMetadata in the state before), and then that file holds the serialized games and header; a failure is a metadata-write failure |
| Catalog.GameManager.CopyGameFiles | core/game_manager.py:99-134 | fails when the platform folder or the media folder cannot be made, and a game without a source directory fails once the folders exist; on success exactly the ancestors of both folders are added to the directories; no directory is removed, and no file outside the platform directory changes; with a source apart from the destination that holds neither the ROM nor any media file, no file changes and it succeeds exactly when both folders can be made; no failure reads as a metadata-write failure |
| Catalog.GameManager.CopySources | core/game_manager.py:108-134 | when the source ROM is a file and the copies succeed, the destination (CopyTarget of the platform folder's ROM path) holds the source ROM's content; when the source has neither the ROM nor a media file, nothing changes and it succeeds; the directories are unchanged and no file outside the platform directory changes; every failure is a disk error |
| Catalog.GameManager.CopyAssets | core/game_manager.py:115-134 | logo, box front and video are copied in turn; no file outside the media folder changes and no directory changes; with none of the three present it succeeds and changes nothing; every failure is a disk error |
| Catalog.GameManager.CopyAsset | core/game_manager.py:115-134 | the first existing candidate of the asset (FirstAsset, what get_logo_path, get_boxfront_path or get_video_path finds), when it is a file and the copy succeeds, is copied with its name into the media folder; with no candidate present nothing changes and it succeeds; the directories are unchanged and no file outside the media folder changes; a failure is a disk error |
| Catalog.GameManager.CopyFound | core/game_manager.py:116-120 | a found media path that exists is copied into the media folder under its own name, the target then holding the source's content when the source is a file; a path that is absent or not found changes nothing and succeeds; directories are unchanged and no file outside the media folder changes; a failure is a disk error |
| Catalog.FirstAssetUnique | core/metadata_parser.py:38-78 | only one candidate is the first existing one, and AssetPath returns it |
| Catalog.GameManager.ExecuteAdd | core/game_manager.py:94-163 | a failure before the metadata write leaves platforms, order and headers unchanged; otherwise the destination copy is upserted, and with a source directory apart from the destination the header becomes the merge of the source's header (unchanged when the source fails to parse); on success the metadata file is rewritten from the catalog; a game without a source directory fails with the catalog unchanged; no other platform's header changes; for a source apart from the destination holding neither ROM nor media, it succeeds exactly when both folders can be made and the metadata file can be written |
| Catalog.GameManager.DeleteGameFiles | core/game_manager.py:171-182 | fails exactly when the ROM path exists but cannot be unlinked or the media folder exists but cannot be removed (DeleteBlocked); on success the ROM file is gone and, when the media folder existed, every file and directory below it is gone, and nothing else changes; a failure is a disk error, leaving the directories unchanged and at most the ROM removed |
| Catalog.GameManager.ExecuteRemove | core/game_manager.py:165-194 | fails before the metadata write exactly when DeleteBlocked holds, leaving the catalog unchanged; otherwise, for a known platform, the entries with the game's display name are dropped, and it succeeds exactly when the metadata file can be written after the ROM is gone, the file then being rewritten; an unknown platform's catalog is untouched and the task succeeds once the files are deleted |
| Catalog.GameManager.ExecuteUpdate | core/game_manager.py:196-207 | a known platform's metadata file is rewritten from the catalog, and the task succeeds exactly when that file can be written (CanWriteMetadata); an unknown platform leaves the disk untouched |
| Catalog.GameManager.Execute | core/game_manager.py:73-79 | the task runs by its type, keeps the catalog consistent, and every failure carries an error text |
| Catalog.GameManager.RunTask | core/game_manager.py:69-88 | the task is marked Running, run, then marked Success, or Failed with the error text; no other task changes |
| Catalog.GameManager.ExecuteTasks | core/game_manager.py:61-92 | every task, in queue order, ends Success or Failed with an error; a failure does not stop the others; the summary's total, success and failed counts match the final statuses; the queue ends empty |
| FileSys.FileSystem.ReadText | core/metadata_parser.py:100-101 | reading succeeds exactly on an existing, non-faulty file and returns its text |
| FileSys.FileSystem.MakeDirs | core/metadata_parser.py:262 | mkdir(parents=True, exist_ok=True) adds the path and all its ancestors to the directories; it succeeds exactly when CanMakeDirs holds (the path is not faulty and no file sits at the path or at a directory above it), and on failure changes nothing |
| FileSys.FileSystem.Copy | core/game_manager.py:112 | copy2: the copy lands at CopyTarget, holding the source file's content, and nothing else changes; it fails, changing nothing, exactly when either path is faulty, the source is not a file, the target is a directory or the target's parent directory does not exist |
| FileSys.CopyTarget | core/game_manager.py:119 | the copy lands at the destination, or below it under the source's name when the destination is a directory |
| FileSys.Parent | core/metadata_parser.py:261 | Path.parent of a non-empty path is the path less its last component |
| FileSys.FileSystem.Unlink | core/game_manager.py:174 | unlink: exactly that file is removed; it fails, changing nothing, when the path is faulty or not a file |
| FileSys.FileSystem.RemoveTree | core/game_manager.py:181 | rmtree: the directory and every file and directory below it are removed; it fails, changing nothing, when the path is faulty or not a directory |
| FileSys.FileSystem.WriteText | core/metadata_parser.py:264-284 | the file holds exactly the written text and no other file changes; opening fails, changing nothing, exactly when the path is faulty or a directory; it does not check that the parent directory exists (see Left out) |

## Left out

- Logging: the `log` callback, `set_log_callback` and every log message. They have no effect on the state.
- Concurrency: running the executor on a QThread. The model is sequential.
- `get_platform_games` and `get_platform_names` are not modelled. They are a dict lookup and a sorted directory listing, and no other operation depends on them.
- Unicode case folding: `lower()` and `re.IGNORECASE` are modelled for ASCII letters only.
- Line separators other than `\n`: `splitlines` also splits at `\r`, `\x0b`, `\x0c`, `\x1c`-`\x1e`, `\x85` and the Unicode line separators. The file is read in text mode, so `\r\n` arrives as `\n`.
- File names with directory separators: `Path(file).stem` is modelled for a single path component.
- MetadataFormat.Stem: the name `.` keeps its text here, where pathlib gives an empty stem (and the media key would fall back to the display name). A ROM file is not named `.`.
- Exception texts are paraphrased in English. The model relies only on their presence, and on the write-failure prefix that `write_metadata` puts on its own failures.
- Aliasing of Python `Game` objects: a task holds a game value, and an edit made to a `Game` object after staging is not seen. Task objects shared between the queue and the executor are modelled as updates at a position in the queue.
- Catalog.GameManager.LoadDirectories: parses every listed directory up front, where the source parses one at a time until the first failure. The parse is a pure function of the disk, so only the work differs, not the result.
- MetadataParser.ParseHeaderFields: merging is not proved idempotent, and a header is not proved to read back the fields merged into it. A merged continuation line that starts with `#` (dropped as a comment) or reads as `key:` (taken as a new field, as HeaderFields.IndentedKeyDropped shows for an indented key) does not read back as written.
- MetadataRoundTrip.WriteThenParse: holds only for values the line format can carry. Display name, file name, sort key and developer must be trimmed and on one line. The file name must not be wrapped in double quotes. A description must be absent or not whitespace only. No header line may start with `game` in any letter case. Other values do not read back unchanged, and the model does not describe what they read back as.
- Catalog.GameManager.CopyAsset: the copy is stated only when the first existing candidate is a file; a candidate that is a directory makes copy2 fail, which the contract admits only as a disk error.
- Catalog.GameManager.CopyGameFiles: the exact success condition is stated only for a source that is apart from the destination and holds neither ROM nor media; otherwise the contract bounds what may change, and CopySources states the copies.
- Catalog.GameManager.ExecuteAdd: does not restate the copied ROM and media files, which CopySources and CopyAsset state. Its exact success condition is stated only for a source apart from the destination that holds neither ROM nor media, where no copy can fail. The merged header is stated only when the source directory lies apart from the destination platform directory: when one holds the other, the copies can change the source's metadata file before it is parsed.
- Catalog.GameManager.ExecuteRemove: the deleted files are stated by DeleteGameFiles; ExecuteRemove states the catalog update, the rewritten metadata file and when the task fails.
- MetadataParser.FindPlatformDirectories and Catalog.GameManager.LoadAllPlatforms: `iterdir()` is not modelled; the listing is a parameter, required to describe the root's entries when the root is a readable directory.
- FileSys.FileSystem.WriteText: a write fails only where `open(path, 'w')` fails, before anything is written. A failure while writing, after `open` has truncated the file, would leave an empty or partial file; disk-full and similar I/O errors are not modelled. Opening does not check that the parent directory exists, where Python raises FileNotFoundError; its one caller, WriteMetadata, makes the parent directories first, so the gap does not reach the model's tasks.
- FileSys.FileSystem.Copy: `shutil.SameFileError` (source and target the same file) and the copying of permissions and timestamps are not modelled. The model copies a source onto itself without failing.
- Catalog.GameManager.Execute: states only that the catalog stays consistent and that failures carry text. The per-type effects are stated by ExecuteAdd, ExecuteRemove and ExecuteUpdate.
- Catalog.GameManager.ExecuteTasks: states each task's final status and the summary, not the catalog and disk changes the tasks make. Those are stated per task by the three execute methods.
