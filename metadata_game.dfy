/** The Game record of core/metadata_parser.py and the rules that locate a
    game's ROM and media files on disk. */
module MetadataFormat {
  import opened Wrappers
  import opened FileSys

  /** One game entry: display name, ROM file name, sort key, developer,
      description, the platform's name and the platform directory it was read
      from (None until the game is tied to a directory). */
  datatype Game = Game(
    game: string,
    file: string,
    sortBy: string,
    developer: string,
    description: string,
    platform: string,
    platformPath: Option<Path>)

  /** The kinds of media file a game can have, each under its own base name. */
  datatype Asset = Logo | BoxFront | Video

  function BaseName(a: Asset): string {
    match a
    case Logo => "logo"
    case BoxFront => "boxFront"
    case Video => "video"
  }

  /** The suffixes tried for an asset, in priority order. */
  function Extensions(a: Asset): seq<string> {
    match a
    case Logo => [".png", ".jpg", ".jpeg", ".gif", ".bmp"]
    case BoxFront => [".png", ".jpg", ".jpeg", ".gif", ".bmp"]
    case Video => [".mp4", ".avi", ".mkv", ".mov"]
  }

  /** The index of the last '.' in f, if any. */
  function LastDot(f: string): (r: Option<nat>)
    ensures r.Some? ==> r.value < |f| && f[r.value] == '.'
    ensures r.Some? ==> forall j :: r.value < j < |f| ==> f[j] != '.'
    ensures r.None? ==> forall j :: 0 <= j < |f| ==> f[j] != '.'
  {
    if f == [] then None
    else if f[|f| - 1] == '.' then Some(|f| - 1)
    else LastDot(f[..|f| - 1])
  }

  /** Path(f).stem for a file name: the name without its suffix, where the
      suffix starts at the last dot unless that dot is the first or the last
      character. */
  function Stem(f: string): (r: string)
    ensures |r| <= |f| && r == f[..|r|]
    ensures f != [] ==> r != []
    ensures r != f ==> f[|r|] == '.' && 0 < |r| < |f| - 1
    ensures r != f ==> forall j :: |r| < j < |f| ==> f[j] != '.'
  {
    match LastDot(f)
    case Some(i) => if 0 < i < |f| - 1 then f[..i] else f
    case None => f
  }

  /** The name of the game's folder under media/: the file stem, else the
      display name, else none. */
  function MediaKey(g: Game): (r: Option<string>)
    ensures r.Some? ==> r.value != []
    ensures g.file != [] ==> r == Some(Stem(g.file))
    ensures g.file == [] ==> r == if g.game == [] then None else Some(g.game)
  {
    if g.file != [] && Stem(g.file) != [] then Some(Stem(g.file))
    else if g.game != [] then Some(g.game)
    else None
  }

  /** <platform>/media/<media key> */
  function MediaDir(platformPath: Path, key: string): Path {
    Child(Child(platformPath, "media"), key)
  }

  /** The candidate file of an asset with the given suffix. */
  function AssetFile(dir: Path, a: Asset, ext: string): Path {
    Child(dir, BaseName(a) + ext)
  }

  /** Game.is_file_missing: the ROM cannot be found, in particular whenever the
      game has no platform directory or no file name. */
  function IsFileMissing(fs: FileSystem, g: Game): (missing: bool)
    reads fs
    ensures g.platformPath.None? || g.file == [] ==> missing
    ensures g.platformPath.Some? && g.file != [] ==> (missing <==> !fs.Exists(Child(g.platformPath.value, g.file)))
  {
    if g.platformPath.Some? && g.file != [] then !fs.Exists(Child(g.platformPath.value, g.file))
    else true
  }

  /** The asset file with the first suffix, in priority order, that exists in dir. */
  method FirstExisting(fs: FileSystem, dir: Path, a: Asset) returns (r: Option<Path>)
    ensures r.None? ==> forall i :: 0 <= i < |Extensions(a)| ==> !fs.Exists(AssetFile(dir, a, Extensions(a)[i]))
    ensures r.Some? ==> fs.Exists(r.value)
    ensures r.Some? ==>
      exists i :: 0 <= i < |Extensions(a)| && r.value == AssetFile(dir, a, Extensions(a)[i])
        && (forall j :: 0 <= j < i ==> !fs.Exists(AssetFile(dir, a, Extensions(a)[j])))
  {
    var exts := Extensions(a);
    for i := 0 to |exts|
      invariant forall j :: 0 <= j < i ==> !fs.Exists(AssetFile(dir, a, exts[j]))
    {
      var candidate := AssetFile(dir, a, exts[i]);
      if fs.Exists(candidate) {
        return Some(candidate);
      }
    }
    return None;
  }

  /** Game.get_logo_path, get_boxfront_path and get_video_path: the first
      existing asset file in the game's media folder; none when the game has no
      platform directory or no media key. */
  method AssetPath(fs: FileSystem, g: Game, a: Asset) returns (r: Option<Path>)
    ensures g.platformPath.None? || MediaKey(g).None? ==> r.None?
    ensures r.Some? ==> fs.Exists(r.value)
    ensures r.Some? ==> var dir := MediaDir(g.platformPath.value, MediaKey(g).value);
      exists i :: 0 <= i < |Extensions(a)| && r.value == AssetFile(dir, a, Extensions(a)[i])
        && (forall j :: 0 <= j < i ==> !fs.Exists(AssetFile(dir, a, Extensions(a)[j])))
    ensures r.None? && g.platformPath.Some? && MediaKey(g).Some? ==>
      var dir := MediaDir(g.platformPath.value, MediaKey(g).value);
      forall i :: 0 <= i < |Extensions(a)| ==> !fs.Exists(AssetFile(dir, a, Extensions(a)[i]))
  {
    if g.platformPath.None? {
      return None;
    }
    var key := MediaKey(g);
    if key.None? {
      return None;
    }
    r := FirstExisting(fs, MediaDir(g.platformPath.value, key.value), a);
  }
}
