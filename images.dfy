/**
 * `File.imageFiles()`: the JPEG pages of an episode folder, read from the first of its
 * sub-folders `jpg`, `jpeg`, `JPG`, `JPEG` that is a directory.
 */
module Images {

  import opened Wrappers
  import opened Text
  import opened Fs
  import opened Projects

  /** The sub-folder names tried, in order. */
  const JpgFolders: seq<string> := ["jpg", "jpeg", "JPG", "JPEG"]

  /** `requireNotNull(jpgPath)` failing: none of the sub-folders is a directory. */
  datatype ImageError = NoJpgFolder(episode: Path)

  /** The listing filter: the name ends with `.jpg` or `.jpeg`, in any case. */
  predicate IsJpgName(name: string) {
    EndsWithIgnoreCase(name, ".jpg") || EndsWithIgnoreCase(name, ".jpeg")
  }

  /** `s` with its ASCII capitals lowered. */
  function Lowered(s: string): (r: string)
    ensures |r| == |s| && forall k :: 0 <= k < |s| ==> r[k] == AsciiLower(s[k])
  {
    seq(|s|, k requires 0 <= k < |s| => AsciiLower(s[k]))
  }

  /** Ignoring case means comparing the lowered name: the suffix ends the lowered name. */
  lemma EndsWithIgnoreCaseLowered(s: string, suffix: string)
    ensures EndsWithIgnoreCase(s, suffix) <==> |suffix| <= |s| && Lowered(s)[|s| - |suffix|..] == suffix
  {
    if |suffix| <= |s| {
      var tail := Lowered(s)[|s| - |suffix|..];
      assert forall k :: 0 <= k < |suffix| ==> tail[k] == AsciiLower(s[|s| - |suffix| + k]);
      if EndsWithIgnoreCase(s, suffix) {
        assert tail == suffix;
      }
    }
  }

  /** `jpgPaths.map { File(this, it) }.find { it.exists() && it.isDirectory }`. */
  function JpgFolder(tree: Tree, episode: Path): (r: Option<Path>)
    ensures r.None? <==> forall k :: 0 <= k < |JpgFolders| ==> episode + [JpgFolders[k]] !in tree
    ensures r.Some? ==> r.value in tree
    ensures r.Some? ==>
      exists k :: 0 <= k < |JpgFolders| && r.value == episode + [JpgFolders[k]]
        && forall j :: 0 <= j < k ==> episode + [JpgFolders[j]] !in tree
  {
    match FirstIndex(JpgFolders, (n: string) => episode + [n] in tree)
    case None => None
    case Some(k) => Some(episode + [JpgFolders[k]])
  }

  /** The files of `dir` named in `names`. */
  function InFolder(dir: Path, names: seq<string>): (r: seq<Path>)
    ensures |r| == |names| && forall k :: 0 <= k < |names| ==> r[k] == dir + [names[k]]
  {
    seq(|names|, k requires 0 <= k < |names| => dir + [names[k]])
  }

  /**
   * `imageFiles()`: `listing` gives what `listFiles` returns for a folder (`None` for
   * null). It throws exactly when none of the four sub-folders is a directory; otherwise
   * it reads the first one in the order `jpg`, `jpeg`, `JPG`, `JPEG`, and returns exactly
   * the JPEG-named entries of that folder's listing, in listing order (none for null).
   */
  function ImageFiles(tree: Tree, episode: Path, listing: Path -> Option<seq<string>>): (r: Result<seq<Path>, ImageError>)
    ensures r.Failure? <==> forall k :: 0 <= k < |JpgFolders| ==> episode + [JpgFolders[k]] !in tree
    ensures r.Success? ==>
      exists k :: 0 <= k < |JpgFolders| && episode + [JpgFolders[k]] in tree
        && (forall j :: 0 <= j < k ==> episode + [JpgFolders[j]] !in tree)
        && var dir := episode + [JpgFolders[k]];
           var names := if listing(dir).Some? then listing(dir).value else [];
           r.value == InFolder(dir, Filter(names, IsJpgName))
  {
    match JpgFolder(tree, episode)
    case None => Failure(NoJpgFolder(episode))
    case Some(dir) => Success(InFolder(dir, ListFiles(listing(dir), Some(IsJpgName))))
  }

  /** A page is accepted exactly when its name, lowered, ends with `.jpg` or `.jpeg`. */
  lemma IsJpgNameSpec(name: string)
    ensures IsJpgName(name) <==>
      (4 <= |name| && Lowered(name)[|name| - 4..] == ".jpg") || (5 <= |name| && Lowered(name)[|name| - 5..] == ".jpeg")
  {
    EndsWithIgnoreCaseLowered(name, ".jpg");
    EndsWithIgnoreCaseLowered(name, ".jpeg");
  }
}
