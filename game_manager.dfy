/** GameManager of core/game_manager.py: the in-memory catalog of a ROM root
    (platform name to its games, platform name to its metadata header), the
    queries over it, and the batch executor that applies queued tasks to the
    disk and to the catalog. */
module Catalog {
  import opened Wrappers
  import opened Text
  import opened FileSys
  import opened MetadataFormat
  import opened MetadataParser
  import opened TaskSystem

  /** The header fields an Add copies from the source platform when the
      destination lacks them. */
  const RequiredHeaderFields: seq<string> := ["collection", "sort-by", "extensions", "launch"]

  /** Two catalog entries are the same game when their file names or their
      display names agree (has_game and the upsert). */
  predicate SameEntry(a: Game, b: Game) {
    a.file == b.file || a.game == b.game
  }

  /** d.get(k, default) */
  function Lookup<V>(d: map<string, V>, k: string, default: V): V {
    if k in d then d[k] else default
  }

  /** The games of the platforms in dict order, concatenated (get_all_games). */
  function Flatten(order: seq<string>, platforms: map<string, seq<Game>>): seq<Game> {
    if order == [] then []
    else Flatten(order[..|order| - 1], platforms) + Lookup(platforms, order[|order| - 1], [])
  }

  /** A game matches a lowercased keyword when its lowercased name, platform
      or developer contains it. */
  predicate Matches(g: Game, keyword: string) {
    Contains(Lower(g.game), keyword) || Contains(Lower(g.platform), keyword)
    || Contains(Lower(g.developer), keyword)
  }

  /** The matching games, in order. */
  function Select(gs: seq<Game>, keyword: string): (r: seq<Game>)
    ensures |r| <= |gs|
    ensures forall g :: g in r <==> g in gs && Matches(g, keyword)
  {
    if gs == [] then []
    else if Matches(gs[0], keyword) then [gs[0]] + Select(gs[1..], keyword)
    else Select(gs[1..], keyword)
  }

  /** The position of the first entry that is the same game as g. */
  function FirstSame(gs: seq<Game>, g: Game): (r: Option<nat>)
    ensures r.Some? ==> r.value < |gs| && SameEntry(gs[r.value], g)
    ensures r.Some? ==> forall j :: 0 <= j < r.value ==> !SameEntry(gs[j], g)
    ensures r.None? ==> forall j :: 0 <= j < |gs| ==> !SameEntry(gs[j], g)
  {
    if gs == [] then None
    else if SameEntry(gs[0], g) then Some(0)
    else match FirstSame(gs[1..], g)
      case None => None
      case Some(i) => Some(i + 1)
  }

  /** The platform list after _upsert_platform_game(g): the first entry that
      is the same game is replaced in place, otherwise g is appended. */
  function Upserted(gs: seq<Game>, g: Game): (r: seq<Game>)
    ensures g in r
    ensures |gs| <= |r| <= |gs| + 1
  {
    match FirstSame(gs, g)
    case Some(i) =>
      assert gs[i := g][i] == g;
      gs[i := g]
    case None => gs + [g]
  }

  /** The replace-or-append loop of _upsert_platform_game: the first entry
      with the same file or the same display name is replaced by g, and g is
      appended when there is none. */
  method UpsertGame(gs: seq<Game>, g: Game) returns (r: seq<Game>)
    ensures r == Upserted(gs, g)
  {
    var i := 0;
    while i < |gs|
      invariant 0 <= i <= |gs|
      invariant forall j :: 0 <= j < i ==> !SameEntry(gs[j], g)
    {
      if gs[i].file == g.file || gs[i].game == g.game {
        return gs[i := g];
      }
      i := i + 1;
    }
    r := gs + [g];
  }

  /** What an upsert does to the list: every entry stays, except that the
      first entry that is the same game becomes g; when there is none, g is
      appended after the unchanged list. */
  lemma UpsertedShape(gs: seq<Game>, g: Game)
    ensures var r := Upserted(gs, g);
      forall j :: 0 <= j < |gs| ==>
        r[j] == gs[j] || (r[j] == g && SameEntry(gs[j], g) && forall k :: 0 <= k < j ==> !SameEntry(gs[k], g))
    ensures var r := Upserted(gs, g);
      |r| == |gs| + 1 ==> r[..|gs|] == gs && forall j :: 0 <= j < |gs| ==> !SameEntry(gs[j], g)
    ensures var r := Upserted(gs, g);
      |r| == |gs| ==> exists j :: 0 <= j < |gs| && SameEntry(gs[j], g) && r == gs[j := g]
  {
    match FirstSame(gs, g)
    case Some(i) =>
    case None =>
  }

  /** The platform list without the entries named name (the filter of
      _execute_remove_task). */
  function RemoveNamed(gs: seq<Game>, name: string): (r: seq<Game>)
    ensures |r| <= |gs|
    ensures forall g :: g in r <==> g in gs && g.game != name
  {
    if gs == [] then []
    else if gs[0].game == name then RemoveNamed(gs[1..], name)
    else [gs[0]] + RemoveNamed(gs[1..], name)
  }

  /** GameManager._create_game_copy: the same game tied to another platform
      directory; every other field is copied as it is. */
  function CreateGameCopy(g: Game, dir: Path): (r: Game)
    ensures r.platformPath == Some(dir)
    ensures r.(platformPath := g.platformPath) == g
  {
    Game(g.game, g.file, g.sortBy, g.developer, g.description, g.platform, Some(dir))
  }

  /** The headers after the merge step of an Add: unchanged when the source
      directory does not parse (the failure is only a warning) or when the
      merge changes nothing; otherwise the merged header is stored. */
  function HeadersAfterMerge(headers: map<string, string>, source: Result<(string, seq<Game>)>,
                             platform: string): (r: map<string, string>)
    ensures source.Err? ==> r == headers
    ensures forall p :: p != platform ==> Lookup(r, p, []) == Lookup(headers, p, [])
  {
    match source
    case Err(_) => headers
    case Ok((sourceHeader, _)) =>
      var current := Lookup(headers, platform, []);
      StoreIfChanged(headers, platform, MergeHeaderFields(current, sourceHeader, RequiredHeaderFields, platform))
  }

  /** headers[platform] := merged, only when that changes the stored header. */
  function StoreIfChanged(headers: map<string, string>, platform: string, merged: string): (r: map<string, string>)
    ensures Lookup(r, platform, []) == merged
    ensures forall p :: p != platform ==> Lookup(r, p, []) == Lookup(headers, p, [])
    ensures r.Keys <= headers.Keys + {platform}
  {
    if merged != Lookup(headers, platform, []) then headers[platform := merged] else headers
  }

  /** Every task ended settled: Success, or Failed with an error text. */
  predicate Settled(t: Task) {
    t.status == Success || (t.status == Failed && t.error != [])
  }

  function CountStatus(ts: seq<Task>, s: TaskStatus): nat {
    if ts == [] then 0
    else CountStatus(ts[..|ts| - 1], s) + (if ts[|ts| - 1].status == s then 1 else 0)
  }

  /** Replacing the task at position i leaves the others in place and puts
      the new one right after the first i. */
  lemma UpdateAt(ts: seq<Task>, i: nat, t: Task)
    requires i < |ts|
    ensures |ts[i := t]| == |ts|
    ensures forall j :: 0 <= j < |ts| && j != i ==> ts[i := t][j] == ts[j]
    ensures ts[i := t][..i] == ts[..i]
    ensures ts[i := t][..i + 1] == ts[..i] + [t]
  {
  }

  lemma CountStatusSnoc(ts: seq<Task>, t: Task)
    ensures forall s :: CountStatus(ts + [t], s) == CountStatus(ts, s) + (if t.status == s then 1 else 0)
  {
    assert (ts + [t])[..|ts|] == ts;
  }

  /** The position of the first failed parse, or the number of results when
      none failed: how far load_all_platforms gets. */
  function FirstErr<T>(results: seq<Result<T>>): (k: nat)
    ensures k <= |results|
    ensures forall j :: 0 <= j < k ==> results[j].Ok?
    ensures k < |results| ==> results[k].Err?
  {
    if results == [] || results[0].Err? then 0 else 1 + FirstErr(results[1..])
  }

  /** Once every directory is loaded, each one's name is in the order. */
  lemma NamesCover(dirs: seq<Path>)
    ensures forall d :: d in dirs ==> Name(d) in DistinctNames(dirs, |dirs|)
  {
    forall d | d in dirs
      ensures Name(d) in DistinctNames(dirs, |dirs|)
    {
      DistinctNamesMembers(dirs, |dirs|, Name(d));
    }
  }

  /** The load reaches the end of the directories exactly when every one of
      them parses. */
  lemma AllParsed(fs: FileSystem, dirs: seq<Path>)
    ensures FirstErr(ParseAll(fs, dirs)) == |dirs| <==> forall d :: d in dirs ==> ParsePlatformDirectory(fs, d).Ok?
  {
    var results := ParseAll(fs, dirs);
    if FirstErr(results) < |dirs| {
      assert dirs[FirstErr(results)] in dirs;
    }
  }

  /** The names of the first n directories, once each, in the order a dict
      keyed by them first sees them. */
  function DistinctNames(ds: seq<Path>, n: nat): seq<string>
    requires n <= |ds|
  {
    if n == 0 then []
    else
      var names := DistinctNames(ds, n - 1);
      if Name(ds[n - 1]) in names then names else names + [Name(ds[n - 1])]
  }

  /** DistinctNames holds each name once. */
  lemma {:induction false} DistinctNamesUnique(ds: seq<Path>, n: nat)
    requires n <= |ds|
    ensures forall a, b :: 0 <= a < b < |DistinctNames(ds, n)| ==> DistinctNames(ds, n)[a] != DistinctNames(ds, n)[b]
  {
    if n > 0 {
      DistinctNamesUnique(ds, n - 1);
    }
  }

  /** DistinctNames lists the name of every one of the first n directories
      and no other name. */
  lemma {:induction false} DistinctNamesMembers(ds: seq<Path>, n: nat, p: string)
    requires n <= |ds|
    ensures p in DistinctNames(ds, n) <==> exists j :: 0 <= j < n && Name(ds[j]) == p
  {
    if n > 0 {
      DistinctNamesMembers(ds, n - 1, p);
    }
  }

  /** The parse result of every directory, in order. */
  function ParseAll(fs: FileSystem, dirs: seq<Path>): (r: seq<Result<(string, seq<Game>)>>)
    reads fs
    ensures |r| == |dirs|
    ensures forall j :: 0 <= j < |dirs| ==> r[j] == ParsePlatformDirectory(fs, dirs[j])
  {
    seq(|dirs|, j requires 0 <= j < |dirs| reads fs => ParsePlatformDirectory(fs, dirs[j]))
  }

  /** The result dict of execute_tasks. */
  /** A disk with these files and directories holds a media file of asset a
      for the game: one that get_logo_path, get_boxfront_path or
      get_video_path finds. */
  predicate HasAsset(g: Game, a: Asset, files: map<Path, string>, dirs: set<Path>) {
    && g.platformPath.Some? && MediaKey(g).Some?
    && exists i :: 0 <= i < |Extensions(a)| &&
         var p := AssetFile(MediaDir(g.platformPath.value, MediaKey(g).value), a, Extensions(a)[i]);
         p in files || p in dirs
  }

  /** The candidate with suffix i is the first, in suffix order, that
      exists in the media folder dir. */
  predicate FirstAt(dir: Path, a: Asset, files: map<Path, string>, dirs: set<Path>, i: int) {
    && 0 <= i < |Extensions(a)|
    && (AssetFile(dir, a, Extensions(a)[i]) in files || AssetFile(dir, a, Extensions(a)[i]) in dirs)
    && forall j :: 0 <= j < i ==> AssetFile(dir, a, Extensions(a)[j]) !in files && AssetFile(dir, a, Extensions(a)[j]) !in dirs
  }

  /** p is the asset file get_logo_path, get_boxfront_path or get_video_path
      returns: the first candidate, in suffix order, that exists. */
  ghost predicate FirstAsset(g: Game, a: Asset, files: map<Path, string>, dirs: set<Path>, p: Path) {
    && g.platformPath.Some? && MediaKey(g).Some?
    && var dir := MediaDir(g.platformPath.value, MediaKey(g).value);
       exists i :: FirstAt(dir, a, files, dirs, i) && p == AssetFile(dir, a, Extensions(a)[i])
  }

  /** At most one candidate is the first that exists. */
  lemma FirstAtUnique(dir: Path, a: Asset, files: map<Path, string>, dirs: set<Path>, i: int, i': int)
    requires FirstAt(dir, a, files, dirs, i) && FirstAt(dir, a, files, dirs, i')
    ensures i == i'
  {
    var p, q := AssetFile(dir, a, Extensions(a)[i]), AssetFile(dir, a, Extensions(a)[i']);
    assert (p in files || p in dirs) && (q in files || q in dirs);
  }

  /** The first existing candidate is what AssetPath finds. */
  lemma FirstAssetUnique(g: Game, a: Asset, files: map<Path, string>, dirs: set<Path>, p: Path, found: Option<Path>)
    requires FirstAsset(g, a, files, dirs, p)
    requires found.Some? ==> FirstAsset(g, a, files, dirs, found.value)
    requires found.None? ==> !HasAsset(g, a, files, dirs)
    ensures found == Some(p)
  {
    var dir := MediaDir(g.platformPath.value, MediaKey(g).value);
    var i :| FirstAt(dir, a, files, dirs, i) && p == AssetFile(dir, a, Extensions(a)[i]);
    if found.Some? {
      var i' :| FirstAt(dir, a, files, dirs, i') && found.value == AssetFile(dir, a, Extensions(a)[i']);
      FirstAtUnique(dir, a, files, dirs, i, i');
    }
  }

  /** Something an Add would copy is there: the game's ROM or one of its
      media files. */
  predicate HasSources(g: Game, files: map<Path, string>, dirs: set<Path>) {
    && g.platformPath.Some?
    && (|| Child(g.platformPath.value, g.file) in files || Child(g.platformPath.value, g.file) in dirs
        || HasAsset(g, Logo, files, dirs) || HasAsset(g, BoxFront, files, dirs) || HasAsset(g, Video, files, dirs))
  }

  /** A path below a tree lies apart from every path apart from that tree. */
  lemma ApartBelow(p: Path, src: Path, dir: Path)
    requires Within(p, src) && Apart(src, dir)
    ensures !Within(p, dir) && !Within(dir, p)
  {
    if Within(dir, p) {
      WithinTrans(dir, p, src);
    }
  }

  /** Whether an asset is there depends only on the directories below the
      source directory. */
  lemma AssetSameBelow(g: Game, a: Asset, files: map<Path, string>, dirs: set<Path>, dirs': set<Path>)
    requires g.platformPath.Some?
    requires forall p :: Within(p, g.platformPath.value) ==> (p in dirs' <==> p in dirs)
    ensures HasAsset(g, a, files, dirs') == HasAsset(g, a, files, dirs)
  {
    var src := g.platformPath.value;
    if MediaKey(g).Some? {
      var m := MediaDir(src, MediaKey(g).value);
      assert Within(Child(src, "media"), src);
      WithinTrans(m, Child(src, "media"), src);
      forall e: string
        ensures Within(AssetFile(m, a, e), src)
      {
        WithinTrans(AssetFile(m, a, e), m, src);
      }
    }
  }

  /** Directories made on the way to and below dir do not bring into view
      anything an Add copies from a source directory apart from dir. */
  lemma SourcesApart(g: Game, files: map<Path, string>, dirs: set<Path>, dirs': set<Path>, dir: Path)
    requires g.platformPath.Some? && Apart(g.platformPath.value, dir)
    requires dirs <= dirs'
    requires forall q :: q in dirs' ==> q in dirs || Within(q, dir) || Within(dir, q)
    ensures HasSources(g, files, dirs') == HasSources(g, files, dirs)
  {
    var src := g.platformPath.value;
    forall p | Within(p, src)
      ensures p in dirs' <==> p in dirs
    {
      ApartBelow(p, src, dir);
    }
    assert Within(Child(src, g.file), src);
    AssetSameBelow(g, Logo, files, dirs, dirs');
    AssetSameBelow(g, BoxFront, files, dirs, dirs');
    AssetSameBelow(g, Video, files, dirs, dirs');
  }

  /** The platform and media folders an Add makes do not change whether the
      platform's metadata file can be written. */
  lemma WriteAfterMakeDirs(faulty: set<Path>, files: map<Path, string>, dirs: set<Path>, dir: Path, key: string)
    ensures var output := Child(dir, MetadataFileName);
      CanWriteMetadata(faulty, files, dirs + Ancestors(dir) + Ancestors(MediaDir(dir, key)), output)
      == CanWriteMetadata(faulty, files, dirs, output)
  {
    var output := Child(dir, MetadataFileName);
    var m := MediaDir(dir, key);
    assert Parent(output) == dir;
    assert output !in Ancestors(m);
  }

  /** The copy of the ROM, into the platform directory or a directory of it,
      never lands in the game's media folder, which is a directory. */
  lemma RomOutsideMedia(target: Path, g: Game, dir: Path)
    requires Within(target, Child(dir, g.file))
    requires |target| <= |Child(dir, g.file)| + 1
    requires target != MediaDir(dir, MediaKey(g).GetOr([]))
    ensures !Within(target, MediaDir(dir, MediaKey(g).GetOr([])))
  {
  }

  /** Deleting paths below the platform directory, other than the metadata
      file, does not change whether that file can be written. */
  lemma WriteAfterDelete(faulty: set<Path>, files: map<Path, string>, dirs: set<Path>,
                         files': map<Path, string>, dirs': set<Path>, dir: Path)
    requires forall q :: |q| <= |dir| ==> (q in files' <==> q in files)
    requires Child(dir, MetadataFileName) in dirs' <==> Child(dir, MetadataFileName) in dirs
    ensures var output := Child(dir, MetadataFileName);
      CanWriteMetadata(faulty, files', dirs', output) == CanWriteMetadata(faulty, files, dirs, output)
  {
    assert Parent(Child(dir, MetadataFileName)) == dir;
  }

  /** A present ROM or media folder that a Remove cannot delete: a faulty
      path, a ROM that is a directory, or a media folder that is a file. */
  predicate DeleteBlocked(faulty: set<Path>, files: map<Path, string>, dirs: set<Path>, rom: Path, media: Path) {
    || ((rom in files || rom in dirs) && (rom in faulty || rom !in files))
    || ((media in files || media in dirs) && (media in faulty || media !in dirs))
  }

  datatype Summary = Summary(total: nat, success: nat, failed: nat)

  /** The TypeError that `None / file` raises when a game has no platform
      directory to copy from. */
  const UnsupportedSlash := "unsupported operand type(s) for /: "
  const NoSourceDirectory := UnsupportedSlash + "'NoneType' and 'str'"

  class GameManager {
    const root: Path
    const queue: TaskQueue
    var platforms: map<string, seq<Game>>
    /** The keys of `platforms` in dict insertion order. */
    var order: seq<string>
    var headers: map<string, string>

    /** `order` lists the keys of `platforms` once each. */
    ghost predicate Valid()
      reads this
    {
      (forall i, j :: 0 <= i < j < |order| ==> order[i] != order[j])
      && (forall p :: p in platforms <==> p in order)
    }

    constructor (root0: Path)
      ensures Valid()
      ensures root == root0 && platforms == map[] && order == [] && headers == map[]
      ensures fresh(queue) && queue.tasks == []
    {
      root := root0;
      queue := new TaskQueue();
      platforms := map[];
      order := [];
      headers := map[];
    }

    /** GameManager.load_all_platforms: both maps are cleared and refilled
        from the platform directories of the root, in listing order; a
        directory that fails to parse aborts the load (the exception
        propagates) and keeps what was loaded before it. */
    method LoadAllPlatforms(fs: FileSystem, listing: seq<string>) returns (r: Outcome)
      requires root !in fs.faulty && root in fs.dirs ==> fs.Listing(root, listing)
      modifies this
      ensures Valid()
      ensures platforms.Keys == headers.Keys
      ensures r.Pass? <==> (root !in fs.faulty && root in fs.dirs
        && forall d :: d in old(PlatformDirs(fs, root, listing)) ==> old(ParsePlatformDirectory(fs, d)).Ok?)
      ensures r.Pass? ==> forall d :: |d| == |root| + 1 && d[..|root|] == root && old(IsPlatformDir(fs, d)) ==> Name(d) in platforms
      ensures root in fs.faulty || root !in fs.dirs ==> order == [] && platforms == map[]
      ensures root !in fs.faulty && root in fs.dirs ==>
        var ds := old(PlatformDirs(fs, root, listing));
        order == DistinctNames(ds, FirstErr(old(ParseAll(fs, ds))))
      ensures root !in fs.faulty && root in fs.dirs ==>
        var ds := old(PlatformDirs(fs, root, listing));
        forall p :: p in platforms ==> LoadedLast(ds, old(ParseAll(fs, ds)), FirstErr(old(ParseAll(fs, ds))), p, (headers[p], platforms[p]))
    {
      var found := FindPlatformDirectories(fs, root, listing);
      if found.Err? {
        platforms, headers, order := map[], map[], [];
        return Fail(found.error);
      }
      r := LoadDirectories(fs, found.value);
    }

    /** The loop of load_all_platforms over the discovered directories: both
        maps are replaced by what the loop loads (the source clears them
        before the search for the directories, which reads only the disk). */
    method LoadDirectories(fs: FileSystem, dirs: seq<Path>) returns (r: Outcome)
      modifies this
      ensures Valid()
      ensures platforms.Keys == headers.Keys
      ensures r.Pass? <==> FirstErr(old(ParseAll(fs, dirs))) == |dirs|
      ensures r.Pass? <==> forall d :: d in dirs ==> old(ParsePlatformDirectory(fs, d)).Ok?
      ensures r.Pass? ==> forall d :: d in dirs ==> Name(d) in platforms
      ensures order == DistinctNames(dirs, FirstErr(old(ParseAll(fs, dirs))))
      ensures forall p :: p in platforms ==>
        LoadedLast(dirs, old(ParseAll(fs, dirs)), FirstErr(old(ParseAll(fs, dirs))), p, (headers[p], platforms[p]))
    {
      AllParsed(fs, dirs);
      var results := ParseAll(fs, dirs);
      var loaded, loadedHeaders, names, failure, source := LoadEach(dirs, results);
      DistinctNamesUnique(dirs, FirstErr(results));
      NamesCover(dirs);
      platforms, headers, order := loaded, loadedHeaders, names;
      r := if failure.Some? then Fail(failure.value) else Pass;
    }

    /** GameManager.get_all_games */
    method GetAllGames() returns (r: seq<Game>)
      ensures r == Flatten(order, platforms)
    {
      r := [];
      for i := 0 to |order|
        invariant r == Flatten(order[..i], platforms)
      {
        assert order[..i + 1][..i] == order[..i];
        r := r + Lookup(platforms, order[i], []);
      }
      assert order[..|order|] == order;
    }

    /** GameManager.has_game: some game of g's platform has g's file name or
        g's display name; an unknown platform has none. */
    method HasGame(g: Game) returns (r: bool)
      ensures r <==> (g.platform in platforms
        && exists i :: 0 <= i < |platforms[g.platform]| && SameEntry(platforms[g.platform][i], g))
    {
      var games := Lookup(platforms, g.platform, []);
      for i := 0 to |games|
        invariant forall j :: 0 <= j < i ==> !SameEntry(games[j], g)
      {
        if games[i].file == g.file || games[i].game == g.game {
          return true;
        }
      }
      return false;
    }

    /** GameManager.search_games: the matching games in platform-then-list order. */
    method SearchGames(keyword: string) returns (r: seq<Game>)
      ensures r == Select(Flatten(order, platforms), Lower(keyword))
    {
      var key := Lower(keyword);
      r := [];
      for i := 0 to |order|
        invariant r == Select(Flatten(order[..i], platforms), key)
      {
        var games := Lookup(platforms, order[i], []);
        var found := SearchPlatform(games, key);
        assert order[..i + 1][..i] == order[..i];
        SelectAppend(Flatten(order[..i], platforms), games, key);
        r := r + found;
      }
      assert order[..|order|] == order;
    }

    /** GameManager._upsert_platform_game */
    method Upsert(platform: string, g: Game)
      requires Valid()
      modifies this
      ensures Valid()
      ensures platforms == old(platforms)[platform := Upserted(Lookup(old(platforms), platform, []), g)]
      ensures order == if platform in old(platforms) then old(order) else old(order) + [platform]
      ensures headers == old(headers)
    {
      if platform !in platforms {
        platforms := platforms[platform := []];
        order := order + [platform];
      }
      var games := UpsertGame(platforms[platform], g);
      platforms := platforms[platform := games];
    }

    /** The header-merge step of _execute_add_task: a source directory that
        does not parse leaves the headers as they are (the failure is only
        logged); otherwise the merged header is stored when it differs. */
    method MergeSourceHeader(fs: FileSystem, platform: string, sourceDir: Path)
      modifies this
      ensures headers == HeadersAfterMerge(old(headers), ParsePlatformDirectory(fs, sourceDir), platform)
      ensures platforms == old(platforms) && order == old(order)
    {
      var parsed := ParsePlatformDirectory(fs, sourceDir);
      headers := HeadersAfterMerge(headers, parsed, platform);
    }

    /** Copies one media file of the source game, if it has one, into the
        destination media folder under the same file name. */
    method CopyAsset(fs: FileSystem, g: Game, a: Asset, mediaDir: Path) returns (r: Outcome)
      modifies fs
      ensures r.Fail? ==> r.error in IoErrors
      ensures fs.dirs == old(fs.dirs)
      ensures SameOutside(old(fs.files), fs.files, mediaDir)
      ensures !HasAsset(g, a, old(fs.files), old(fs.dirs)) ==> r.Pass? && fs.files == old(fs.files)
      ensures forall p :: r.Pass? && FirstAsset(g, a, old(fs.files), old(fs.dirs), p) && p in old(fs.files) ==>
        var target := CopyTarget(old(fs.dirs), p, Child(mediaDir, Name(p)));
        target in fs.files && fs.files[target] == old(fs.files)[p]
    {
      var found := AssetPath(fs, g, a);
      if found.Some? {
        var dir := MediaDir(g.platformPath.value, MediaKey(g).value);
        var i :| 0 <= i < |Extensions(a)| && found.value == AssetFile(dir, a, Extensions(a)[i])
          && (forall j :: 0 <= j < i ==> !fs.Exists(AssetFile(dir, a, Extensions(a)[j])));
        assert FirstAt(dir, a, fs.files, fs.dirs, i);
      }
      forall p | FirstAsset(g, a, fs.files, fs.dirs, p)
        ensures found == Some(p)
      {
        FirstAssetUnique(g, a, fs.files, fs.dirs, p, found);
      }
      r := CopyFound(fs, found, mediaDir);
    }

    /** The copy step of one media file: `if path and path.exists()`, copy2
        into the media folder under the file's own name. */
    method CopyFound(fs: FileSystem, found: Option<Path>, mediaDir: Path) returns (r: Outcome)
      modifies fs
      ensures r.Fail? ==> r.error in IoErrors
      ensures fs.dirs == old(fs.dirs)
      ensures SameOutside(old(fs.files), fs.files, mediaDir)
      ensures found.None? || !old(fs.Exists(found.value)) ==> r.Pass? && fs.files == old(fs.files)
      ensures r.Pass? && found.Some? && found.value in old(fs.files) ==>
        var target := CopyTarget(old(fs.dirs), found.value, Child(mediaDir, Name(found.value)));
        target in fs.files && fs.files[target] == old(fs.files)[found.value]
    {
      if found.Some? && fs.Exists(found.value) {
        var target := Child(mediaDir, Name(found.value));
        WithinTrans(CopyTarget(fs.dirs, found.value, target), target, mediaDir);
        r := fs.Copy(found.value, target);
      } else {
        r := Pass;
      }
    }


    /** GameManager._execute_add_task: create the destination folders, copy
        the ROM and media, merge the header, upsert a copy of the game tied to
        the destination directory and rewrite the metadata file. */
    method ExecuteAdd(fs: FileSystem, g: Game) returns (r: Outcome)
      requires Valid()
      modifies this, fs
      ensures Valid()
      ensures r.Fail? ==> r.error != []
      ensures g.platformPath.None? ==> r.Fail? && platforms == old(platforms) && headers == old(headers)
      ensures var dir := Child(root, g.platform);
        var upserted := old(platforms)[g.platform := Upserted(Lookup(old(platforms), g.platform, []), CreateGameCopy(g, dir))];
        platforms == old(platforms) || platforms == upserted
      ensures r.Pass? ==> var dir := Child(root, g.platform);
        && platforms == old(platforms)[g.platform := Upserted(Lookup(old(platforms), g.platform, []), CreateGameCopy(g, dir))]
        && order == (if g.platform in old(platforms) then old(order) else old(order) + [g.platform])
        && Child(dir, MetadataFileName) in fs.files
        && fs.files[Child(dir, MetadataFileName)] == Serialize(Lookup(headers, g.platform, []), platforms[g.platform])
      ensures forall p :: p != g.platform ==> Lookup(headers, p, []) == Lookup(old(headers), p, [])
      ensures r.Fail? && !StartsWith(r.error, WriteFailure) ==>
        platforms == old(platforms) && order == old(order) && headers == old(headers)
      ensures r.Pass? || StartsWith(r.error, WriteFailure) ==> var dir := Child(root, g.platform);
        && platforms == old(platforms)[g.platform := Upserted(Lookup(old(platforms), g.platform, []), CreateGameCopy(g, dir))]
        && order == (if g.platform in old(platforms) then old(order) else old(order) + [g.platform])
      ensures (r.Pass? || StartsWith(r.error, WriteFailure)) && g.platformPath.Some?
              && Apart(g.platformPath.value, Child(root, g.platform)) ==>
        headers == HeadersAfterMerge(old(headers), old(ParsePlatformDirectory(fs, g.platformPath.value)), g.platform)
      ensures var dir := Child(root, g.platform);
        g.platformPath.Some? && Apart(g.platformPath.value, dir) && !HasSources(g, old(fs.files), old(fs.dirs)) ==>
          (r.Pass? <==> && CanMakeDirs(fs.faulty, old(fs.files), dir)
                        && CanMakeDirs(fs.faulty, old(fs.files), MediaDir(dir, MediaKey(g).GetOr([])))
                        && CanWriteMetadata(fs.faulty, old(fs.files), old(fs.dirs), Child(dir, MetadataFileName)))
    {
      var dir := Child(root, g.platform);
      r := CopyGameFiles(fs, g, dir);
      if r.Fail? {
        return;
      }
      WriteAfterMakeDirs(fs.faulty, old(fs.files), old(fs.dirs), dir, MediaKey(g).GetOr([]));
      if Apart(g.platformPath.value, dir) {
        ApartChild(g.platformPath.value, dir, MetadataFileName);
        ApartChild(g.platformPath.value, dir, MediaFolderName);
        assert ParsePlatformDirectory(fs, g.platformPath.value) == old(ParsePlatformDirectory(fs, g.platformPath.value));
      }
      r := RecordAdd(fs, g, dir);
    }

    /** The file-system half of _execute_add_task: the destination platform
        and media folders, then the ROM (when it exists) and each media file
        found for the source game. A game without a source directory fails
        once the folders exist. */
    method CopyGameFiles(fs: FileSystem, g: Game, dir: Path) returns (r: Outcome)
      modifies fs
      ensures r.Fail? ==> r.error != [] && !StartsWith(r.error, WriteFailure)
      ensures g.platformPath.None? ==> r.Fail?
      ensures old(fs.dirs) <= fs.dirs
      ensures forall q :: q in fs.dirs ==> q in old(fs.dirs) || Within(q, dir) || Within(dir, q)
      ensures SameOutside(old(fs.files), fs.files, dir)
      ensures r.Pass? ==> fs.dirs == old(fs.dirs) + Ancestors(dir) + Ancestors(MediaDir(dir, MediaKey(g).GetOr([])))
      ensures (!CanMakeDirs(fs.faulty, old(fs.files), dir)
               || !CanMakeDirs(fs.faulty, old(fs.files), MediaDir(dir, MediaKey(g).GetOr([])))) ==> r.Fail?
      ensures g.platformPath.Some? && Apart(g.platformPath.value, dir) && !HasSources(g, old(fs.files), old(fs.dirs)) ==>
        && fs.files == old(fs.files)
        && (r.Pass? <==> CanMakeDirs(fs.faulty, old(fs.files), dir)
                         && CanMakeDirs(fs.faulty, old(fs.files), MediaDir(dir, MediaKey(g).GetOr([]))))
    {
      OtherErrorsNotWrite();
      var mediaDir := MediaDir(dir, MediaKey(g).GetOr([]));
      WithinTrans(mediaDir, Child(dir, "media"), dir);
      AncestorsAround(dir, dir);
      AncestorsAround(mediaDir, dir);
      var made := fs.MakeDirs(dir);
      if made.Fail? {
        return made;
      }
      made := fs.MakeDirs(mediaDir);
      if made.Fail? {
        return made;
      }
      if g.platformPath.None? {
        return Fail(NoSourceDirectory);
      }
      assert mediaDir[..|mediaDir|] == mediaDir && mediaDir[..|mediaDir|] in Ancestors(mediaDir);
      if Apart(g.platformPath.value, dir) {
        SourcesApart(g, old(fs.files), old(fs.dirs), fs.dirs, dir);
      }
      r := CopySources(fs, g, dir, mediaDir);
    }

    /** The copies of _execute_add_task, once the folders exist: the ROM when
        the source has it, then each media file found for the source game.
        Every copy lands below the destination platform directory. */
    method CopySources(fs: FileSystem, g: Game, dir: Path, mediaDir: Path) returns (r: Outcome)
      requires g.platformPath.Some? && Within(mediaDir, dir)
      requires mediaDir == MediaDir(dir, MediaKey(g).GetOr([])) && mediaDir in fs.dirs
      modifies fs
      ensures r.Fail? ==> r.error in IoErrors
      ensures fs.dirs == old(fs.dirs)
      ensures SameOutside(old(fs.files), fs.files, dir)
      ensures !HasSources(g, old(fs.files), old(fs.dirs)) ==> r.Pass? && fs.files == old(fs.files)
      ensures var source := Child(g.platformPath.value, g.file);
        var target := CopyTarget(old(fs.dirs), source, Child(dir, g.file));
        r.Pass? && source in old(fs.files) ==> target in fs.files && fs.files[target] == old(fs.files)[source]
    {
      var source := Child(g.platformPath.value, g.file);
      if fs.Exists(source) {
        var target := CopyTarget(fs.dirs, source, Child(dir, g.file));
        WithinTrans(target, Child(dir, g.file), dir);
        var copied := fs.Copy(source, Child(dir, g.file));
        if copied.Fail? {
          return copied;
        }
        RomOutsideMedia(target, g, dir);
      }
      ghost var files0 := fs.files;
      r := CopyAssets(fs, g, mediaDir);
      SameOutsideWiden(files0, fs.files, mediaDir, dir);
      SameOutsideTrans(old(fs.files), files0, fs.files, dir);
    }

    /** The media copies of _execute_add_task: the logo, the box front and
        the video, in that order, each when the source game has one; the
        first failure stops the rest. */
    method CopyAssets(fs: FileSystem, g: Game, mediaDir: Path) returns (r: Outcome)
      modifies fs
      ensures r.Fail? ==> r.error in IoErrors
      ensures fs.dirs == old(fs.dirs)
      ensures SameOutside(old(fs.files), fs.files, mediaDir)
      ensures (!HasAsset(g, Logo, old(fs.files), old(fs.dirs)) && !HasAsset(g, BoxFront, old(fs.files), old(fs.dirs))
               && !HasAsset(g, Video, old(fs.files), old(fs.dirs))) ==> r.Pass? && fs.files == old(fs.files)
    {
      r := CopyAsset(fs, g, Logo, mediaDir);
      if r.Fail? {
        return;
      }
      ghost var files1 := fs.files;
      r := CopyAsset(fs, g, BoxFront, mediaDir);
      SameOutsideTrans(old(fs.files), files1, fs.files, mediaDir);
      if r.Fail? {
        return;
      }
      ghost var files2 := fs.files;
      r := CopyAsset(fs, g, Video, mediaDir);
      SameOutsideTrans(old(fs.files), files2, fs.files, mediaDir);
    }

    /** The catalog half of _execute_add_task: merge the source header,
        upsert the copy of the game tied to the destination directory and
        rewrite the platform's metadata file. */
    method RecordAdd(fs: FileSystem, g: Game, dir: Path) returns (r: Outcome)
      requires Valid()
      requires g.platformPath.Some?
      modifies this, fs
      ensures Valid()
      ensures r.Fail? ==> r.error != []
      ensures platforms == old(platforms)[g.platform := Upserted(Lookup(old(platforms), g.platform, []), CreateGameCopy(g, dir))]
      ensures order == (if g.platform in old(platforms) then old(order) else old(order) + [g.platform])
      ensures r.Pass? ==> (Child(dir, MetadataFileName) in fs.files
        && fs.files[Child(dir, MetadataFileName)] == Serialize(Lookup(headers, g.platform, []), platforms[g.platform]))
      ensures forall p :: p != g.platform ==> Lookup(headers, p, []) == Lookup(old(headers), p, [])
      ensures headers == HeadersAfterMerge(old(headers), old(ParsePlatformDirectory(fs, g.platformPath.value)), g.platform)
      ensures r.Fail? ==> StartsWith(r.error, WriteFailure)
      ensures r.Pass? <==> CanWriteMetadata(fs.faulty, old(fs.files), old(fs.dirs), Child(dir, MetadataFileName))
    {
      MergeSourceHeader(fs, g.platform, g.platformPath.value);
      AddToCatalog(g, dir);
      r := WriteMetadata(fs, platforms[g.platform], Child(dir, MetadataFileName), Lookup(headers, g.platform, []));
    }

    /** The in-memory update of _execute_add_task after the header merge: the
        platform gets an entry list if it had none, then the copy of the game
        tied to the destination directory is upserted into it. */
    method AddToCatalog(g: Game, dir: Path)
      requires Valid()
      modifies this
      ensures Valid()
      ensures platforms == old(platforms)[g.platform := Upserted(Lookup(old(platforms), g.platform, []), CreateGameCopy(g, dir))]
      ensures order == (if g.platform in old(platforms) then old(order) else old(order) + [g.platform])
      ensures headers == old(headers)
    {
      var platform := g.platform;
      if platform !in platforms {
        platforms := platforms[platform := []];
        order := order + [platform];
      }
      Upsert(platform, CreateGameCopy(g, dir));
    }

    /** GameManager._execute_remove_task: delete the ROM and the media folder
        if present; when the platform is known, drop every entry with the
        game's display name and rewrite the metadata file. */
    method ExecuteRemove(fs: FileSystem, g: Game) returns (r: Outcome)
      requires Valid()
      modifies fs, this
      ensures Valid()
      ensures r.Fail? ==> r.error != []
      ensures order == old(order) && headers == old(headers)
      ensures g.platform !in old(platforms) ==> platforms == old(platforms)
      ensures g.platform in old(platforms) ==>
        platforms == old(platforms) || platforms == old(platforms)[g.platform := RemoveNamed(old(platforms)[g.platform], g.game)]
      ensures r.Pass? && g.platform in old(platforms) ==>
        && platforms == old(platforms)[g.platform := RemoveNamed(old(platforms)[g.platform], g.game)]
        && Child(Child(root, g.platform), MetadataFileName) in fs.files
        && fs.files[Child(Child(root, g.platform), MetadataFileName)] == Serialize(Lookup(headers, g.platform, []), platforms[g.platform])
      ensures r.Fail? && !StartsWith(r.error, WriteFailure) ==> platforms == old(platforms)
      ensures (r.Pass? || StartsWith(r.error, WriteFailure)) && g.platform in old(platforms) ==>
        platforms == old(platforms)[g.platform := RemoveNamed(old(platforms)[g.platform], g.game)]
      ensures var dir := Child(root, g.platform);
        (r.Fail? && !StartsWith(r.error, WriteFailure)) <==>
          DeleteBlocked(fs.faulty, old(fs.files), old(fs.dirs), Child(dir, g.file), MediaDir(dir, MediaKey(g).GetOr([])))
      ensures var dir := Child(root, g.platform);
        !DeleteBlocked(fs.faulty, old(fs.files), old(fs.dirs), Child(dir, g.file), MediaDir(dir, MediaKey(g).GetOr([]))) ==>
          (r.Pass? <==> g.platform !in old(platforms)
                        || CanWriteMetadata(fs.faulty, old(fs.files) - {Child(dir, g.file)}, old(fs.dirs), Child(dir, MetadataFileName)))
    {
      var platform := g.platform;
      var dir := Child(root, platform);
      r := DeleteGameFiles(fs, g, dir);
      if r.Fail? {
        OtherErrorsNotWrite();
        return;
      }
      WriteAfterDelete(fs.faulty, old(fs.files) - {Child(dir, g.file)}, old(fs.dirs), fs.files, fs.dirs, dir);
      if platform in platforms {
        platforms := platforms[platform := RemoveNamed(platforms[platform], g.game)];
        r := WriteMetadata(fs, platforms[platform], Child(dir, MetadataFileName), Lookup(headers, platform, []));
      } else {
        r := Pass;
      }
    }

    /** The file-system half of _execute_remove_task: unlink the ROM if it
        exists, then remove the media folder's tree if it exists. */
    method DeleteGameFiles(fs: FileSystem, g: Game, dir: Path) returns (r: Outcome)
      modifies fs
      ensures var rom, media := Child(dir, g.file), MediaDir(dir, MediaKey(g).GetOr([]));
        r.Fail? <==> DeleteBlocked(fs.faulty, old(fs.files), old(fs.dirs), rom, media)
      ensures r.Fail? ==> r.error in IoErrors && fs.dirs == old(fs.dirs)
      ensures r.Fail? ==> fs.files == old(fs.files) || fs.files == old(fs.files) - {Child(dir, g.file)}
      ensures var rom, media := Child(dir, g.file), MediaDir(dir, MediaKey(g).GetOr([]));
        r.Pass? ==> fs.files == if old(fs.Exists(media))
                                then map q | q in old(fs.files) - {rom} && !Within(q, media) :: old(fs.files)[q]
                                else old(fs.files) - {rom}
      ensures var media := MediaDir(dir, MediaKey(g).GetOr([]));
        r.Pass? ==> fs.dirs == if old(fs.Exists(media)) then set q | q in old(fs.dirs) && !Within(q, media) else old(fs.dirs)
      ensures r.Pass? ==> forall q :: |q| <= |dir| ==> (q in fs.files <==> q in old(fs.files) - {Child(dir, g.file)})
      ensures r.Pass? ==> (Child(dir, MetadataFileName) in fs.dirs <==> Child(dir, MetadataFileName) in old(fs.dirs))
    {
      var romFile := Child(dir, g.file);
      var mediaDir := MediaDir(dir, MediaKey(g).GetOr([]));
      assert romFile != mediaDir && |mediaDir| > |dir| && Child(dir, MetadataFileName) != mediaDir;
      if fs.Exists(romFile) {
        r := fs.Unlink(romFile);
        if r.Fail? {
          return;
        }
      } else {
        assert fs.files - {romFile} == fs.files;
      }
      if fs.Exists(mediaDir) {
        r := fs.RemoveTree(mediaDir);
      } else {
        r := Pass;
      }
    }

    /** GameManager._execute_update_task: rewrite the metadata file of a known
        platform from the catalog. */
    method ExecuteUpdate(fs: FileSystem, g: Game) returns (r: Outcome)
      modifies fs
      ensures r.Fail? ==> r.error != []
      ensures g.platform !in platforms ==> r.Pass? && fs.files == old(fs.files) && fs.dirs == old(fs.dirs)
      ensures r.Pass? && g.platform in platforms ==>
        fs.files == old(fs.files)[Child(Child(root, g.platform), MetadataFileName) :=
                                  Serialize(Lookup(headers, g.platform, []), platforms[g.platform])]
      ensures g.platform in platforms ==>
        (r.Pass? <==> CanWriteMetadata(fs.faulty, old(fs.files), old(fs.dirs), Child(Child(root, g.platform), MetadataFileName)))
    {
      var platform := g.platform;
      if platform in platforms {
        r := WriteMetadata(fs, platforms[platform], Child(Child(root, platform), MetadataFileName), Lookup(headers, platform, []));
      } else {
        r := Pass;
      }
    }

    /** Runs one task according to its type. */
    method Execute(fs: FileSystem, t: Task) returns (r: Outcome)
      requires Valid()
      modifies fs, this
      ensures Valid()
      ensures r.Fail? ==> r.error != []
    {
      match t.kind
      case Add => r := ExecuteAdd(fs, t.game);
      case Remove => r := ExecuteRemove(fs, t.game);
      case Update => r := ExecuteUpdate(fs, t.game);
    }

    /** One pass of the loop of execute_tasks: the task at position i is
        marked Running, executed, then marked Success, or Failed with the
        error text; no other task changes. */
    method RunTask(fs: FileSystem, i: nat) returns (passed: bool)
      requires Valid()
      requires i < |queue.tasks|
      modifies this, fs, queue
      ensures Valid()
      ensures |queue.tasks| == |old(queue.tasks)|
      ensures queue.tasks == old(queue.tasks)[i := queue.tasks[i]]
      ensures queue.tasks[i].kind == old(queue.tasks)[i].kind && queue.tasks[i].game == old(queue.tasks)[i].game
      ensures Settled(queue.tasks[i])
      ensures passed <==> queue.tasks[i].status == Success
    {
      queue.SetStatus(i, Running, queue.tasks[i].error);
      var t := queue.tasks[i];
      var outcome := Execute(fs, t);
      if outcome.Pass? {
        queue.SetStatus(i, Success, t.error);
        passed := true;
      } else {
        queue.SetStatus(i, Failed, outcome.error);
        passed := false;
      }
    }

    /** GameManager.execute_tasks: every task in queue order is run; a
        failure marks that task and does not stop the others; the queue is
        emptied at the end. `finals` are the tasks as they stood before the
        queue was cleared. */
    method ExecuteTasks(fs: FileSystem) returns (summary: Summary, ghost finals: seq<Task>)
      requires Valid()
      modifies this, fs, queue
      ensures Valid()
      ensures summary.total == |old(queue.tasks)| == |finals|
      ensures summary.success + summary.failed == summary.total
      ensures summary.success == CountStatus(finals, Success) && summary.failed == CountStatus(finals, Failed)
      ensures forall i :: 0 <= i < |finals| ==>
        finals[i].kind == old(queue.tasks)[i].kind && finals[i].game == old(queue.tasks)[i].game && Settled(finals[i])
      ensures queue.tasks == []
    {
      var total := |queue.tasks|;
      var success, failed := 0, 0;
      for i := 0 to total
        invariant Valid()
        invariant |queue.tasks| == total
        invariant forall j :: 0 <= j < total ==>
          queue.tasks[j].kind == old(queue.tasks)[j].kind && queue.tasks[j].game == old(queue.tasks)[j].game
        invariant forall j :: 0 <= j < i ==> Settled(queue.tasks[j])
        invariant success == CountStatus(queue.tasks[..i], Success)
        invariant failed == CountStatus(queue.tasks[..i], Failed)
        invariant success + failed == i
      {
        ghost var pre := queue.tasks;
        var passed := RunTask(fs, i);
        if passed {
          success := success + 1;
        } else {
          failed := failed + 1;
        }
        UpdateAt(pre, i, queue.tasks[i]);
        CountStatusSnoc(pre[..i], queue.tasks[i]);
      }
      assert queue.tasks[..total] == queue.tasks;
      finals := queue.tasks;
      queue.Clear();
      summary := Summary(total, success, failed);
    }
  }

  /** No failure of a disk operation, nor the missing source directory, reads
      like a failed metadata write: a failure names where it came from. */
  lemma OtherErrorsNotWrite()
    ensures forall e :: e in IoErrors + {NoSourceDirectory} ==> !StartsWith(e, WriteFailure)
  {
    forall e | e in IoErrors + {NoSourceDirectory}
      ensures !StartsWith(e, WriteFailure)
    {
      if e == NoSourceDirectory {
        assert e[0] == UnsupportedSlash[0] == 'u' && WriteFailure[0] == 'f';
      } else {
        assert |e| < |WriteFailure|;
      }
    }
  }

  /** No directory after position from and before position to is named p. */
  ghost predicate NoLaterName(dirs: seq<Path>, from: nat, to: nat, p: string) {
    forall j :: from < j < to && j < |dirs| ==> Name(dirs[j]) != p
  }

  /** Among the first k directories, the last one named p parsed to entry:
      the one whose load the dict of load_all_platforms keeps. */
  ghost predicate LoadedLast(dirs: seq<Path>, results: seq<Result<(string, seq<Game>)>>, k: nat,
                             p: string, entry: (string, seq<Game>))
  {
    exists j :: 0 <= j < k <= |dirs| && k <= |results| && Name(dirs[j]) == p && results[j] == Ok(entry)
      && NoLaterName(dirs, j, k, p)
  }

  /** The loop of load_all_platforms over the parse results of the
      directories, in order: each success stores the platform's games and
      header under the directory's name (a later directory of the same name
      replaces an earlier one, keeping its place in the dict order); the
      first failure stops the loop. */
  method LoadEach(dirs: seq<Path>, results: seq<Result<(string, seq<Game>)>>)
    returns (loaded: map<string, seq<Game>>, loadedHeaders: map<string, string>, names: seq<string>,
             failure: Option<string>, ghost source: map<string, nat>)
    requires |results| == |dirs|
    ensures names == DistinctNames(dirs, FirstErr(results))
    ensures forall p :: p in loaded <==> p in names
    ensures loaded.Keys == loadedHeaders.Keys == source.Keys
    ensures forall p :: p in source ==> source[p] < FirstErr(results) && Name(dirs[source[p]]) == p
    ensures forall p :: p in source ==> results[source[p]] == Ok((loadedHeaders[p], loaded[p]))
    ensures forall p :: p in loaded ==> LoadedLast(dirs, results, FirstErr(results), p, (loadedHeaders[p], loaded[p]))
    ensures failure.Some? <==> FirstErr(results) < |dirs|
    ensures failure.Some? ==> failure.value == results[FirstErr(results)].error
  {
    loaded, loadedHeaders, names, failure, source := map[], map[], [], None, map[];
    var i := 0;
    while i < |dirs| && failure.None?
      invariant 0 <= i <= |dirs|
      invariant LoadedUpTo(dirs, results, i, loaded, loadedHeaders, names, source)
      invariant i <= FirstErr(results)
      invariant failure.Some? ==> i < |dirs| && results[i] == Err(failure.value)
      decreases |dirs| - i, failure.None?
    {
      if results[i].Err? {
        failure := Some(results[i].error);
      } else {
        assert i < FirstErr(results);
        loaded, loadedHeaders, names, source := StoreLoaded(dirs, results, i, loaded, loadedHeaders, names, source);
        i := i + 1;
      }
    }
    assert FirstErr(results) == i;
    forall p | p in loaded
      ensures LoadedLast(dirs, results, i, p, (loadedHeaders[p], loaded[p]))
    {
      assert Name(dirs[source[p]]) == p;
    }
  }

  /** What the loop of load_all_platforms has built after the first i
      directories: names in first-seen order, one entry per name, taken from
      the last directory of that name (source records which). */
  ghost predicate LoadedUpTo(dirs: seq<Path>, results: seq<Result<(string, seq<Game>)>>, i: nat,
                             loaded: map<string, seq<Game>>, loadedHeaders: map<string, string>,
                             names: seq<string>, source: map<string, nat>)
  {
    i <= |dirs| == |results|
    && names == DistinctNames(dirs, i)
    && (forall p :: p in loaded <==> p in names)
    && loaded.Keys == loadedHeaders.Keys == source.Keys
    && (forall p :: p in source ==> source[p] < i && Name(dirs[source[p]]) == p)
    && (forall p :: p in source ==> NoLaterName(dirs, source[p], i, p))
    && (forall p :: p in source ==> results[source[p]] == Ok((loadedHeaders[p], loaded[p])))
  }

  /** One successful directory of that loop: its games and header are stored
      under its name, which joins the order when it is new. */
  method StoreLoaded(dirs: seq<Path>, results: seq<Result<(string, seq<Game>)>>, i: nat,
                     loaded: map<string, seq<Game>>, loadedHeaders: map<string, string>,
                     names: seq<string>, ghost source: map<string, nat>)
    returns (loaded': map<string, seq<Game>>, loadedHeaders': map<string, string>,
             names': seq<string>, ghost source': map<string, nat>)
    requires i < |dirs| == |results| && results[i].Ok?
    requires LoadedUpTo(dirs, results, i, loaded, loadedHeaders, names, source)
    ensures LoadedUpTo(dirs, results, i + 1, loaded', loadedHeaders', names', source')
  {
    var name := Name(dirs[i]);
    names' := if name in loaded then names else names + [name];
    loaded' := loaded[name := results[i].value.1];
    loadedHeaders' := loadedHeaders[name := results[i].value.0];
    source' := source[name := i];
    forall p | p in source'
      ensures NoLaterName(dirs, source'[p], i + 1, p)
    {
      if p != name {
        NoLaterNameStep(dirs, source[p], i, p);
      }
    }
  }

  lemma NoLaterNameStep(dirs: seq<Path>, from: nat, i: nat, p: string)
    requires i < |dirs| && NoLaterName(dirs, from, i, p) && Name(dirs[i]) != p
    ensures NoLaterName(dirs, from, i + 1, p)
  {
  }

  /** The inner loop of search_games over one platform's games. */
  method SearchPlatform(games: seq<Game>, key: string) returns (r: seq<Game>)
    ensures r == Select(games, key)
  {
    r := [];
    for j := 0 to |games|
      invariant r == Select(games[..j], key)
    {
      SelectAppend(games[..j], [games[j]], key);
      SelectOne(games[j], key);
      assert games[..j + 1] == games[..j] + [games[j]];
      if Contains(Lower(games[j].game), key) || Contains(Lower(games[j].platform), key)
         || Contains(Lower(games[j].developer), key) {
        r := r + [games[j]];
      }
    }
    assert games[..|games|] == games;
  }

  lemma SelectOne(g: Game, keyword: string)
    ensures Select([g], keyword) == if Matches(g, keyword) then [g] else []
  {
    assert [g][1..] == [];
  }

  /** Filtering a concatenation filters each part. */
  lemma {:induction false} SelectAppend(a: seq<Game>, b: seq<Game>, keyword: string)
    ensures Select(a + b, keyword) == Select(a, keyword) + Select(b, keyword)
  {
    if a == [] {
      assert a + b == b;
    } else {
      assert (a + b)[1..] == a[1..] + b;
      SelectAppend(a[1..], b, keyword);
    }
  }

  /** The flattened catalog holds exactly the games of the listed platforms. */
  lemma {:induction false} FlattenMembers(order: seq<string>, platforms: map<string, seq<Game>>, g: Game)
    requires forall p :: p in order ==> p in platforms
    ensures g in Flatten(order, platforms) <==> exists i :: 0 <= i < |order| && g in platforms[order[i]]
  {
    if order != [] {
      var init := order[..|order| - 1];
      FlattenMembers(init, platforms, g);
      if g in Flatten(order, platforms) && g !in Flatten(init, platforms) {
        assert g in platforms[order[|order| - 1]];
      }
      if i :| 0 <= i < |init| && g in platforms[init[i]] {
        assert order[i] == init[i];
      }
    }
  }

  /** search_games returns exactly the games of the catalog that match the
      lowercased keyword, in the catalog's order. */
  lemma SearchSpec(order: seq<string>, platforms: map<string, seq<Game>>, keyword: string, g: Game)
    requires forall p :: p in order ==> p in platforms
    ensures g in Select(Flatten(order, platforms), Lower(keyword)) <==>
      (exists i :: 0 <= i < |order| && g in platforms[order[i]]) && Matches(g, Lower(keyword))
  {
    FlattenMembers(order, platforms, g);
  }

  /** Removal keeps the order of the remaining entries: removing from a
      concatenation removes from each part. */
  lemma {:induction false} RemoveNamedAppend(a: seq<Game>, b: seq<Game>, name: string)
    ensures RemoveNamed(a + b, name) == RemoveNamed(a, name) + RemoveNamed(b, name)
  {
    if a == [] {
      assert a + b == b;
    } else {
      assert (a + b)[1..] == a[1..] + b;
      RemoveNamedAppend(a[1..], b, name);
    }
  }
}
