/**
 * The abstract filesystem the copy task works on: every directory, keyed by its path,
 * maps the names of the regular files directly inside it to their bytes and their
 * last-modified time. `FileSystem` is the mutable state; its methods are the
 * `java.io.File` and `java.nio.file.Files` operations `copyTask` performs.
 */
module Fs {

  import opened Wrappers
  import opened HexFormat

  /** A path as its components: `File(dir, name)` is `dir + [name]`. */
  type Path = seq<string>

  /** `File.name`: the last component of the path, or "" for the empty path. */
  function Name(p: Path): string {
    if p == [] then "" else p[|p| - 1]
  }

  /** A regular file: its bytes and its `lastModified()` time in milliseconds. */
  datatype FileEntry = FileEntry(content: seq<byte>, lastModified: nat)

  type Directory = map<string, FileEntry>

  type Tree = map<Path, Directory>

  /** The regular files of a directory; a directory that does not exist has none. */
  function Files(tree: Tree, dir: Path): Directory {
    if dir in tree then tree[dir] else map[]
  }

  /** `File(dir, name).exists()` for a regular file. */
  predicate FileExists(tree: Tree, dir: Path, name: string) {
    dir in tree && name in tree[dir]
  }

  /** `mkdirs()` on a directory: an existing directory keeps its files, a new one is empty. */
  function WithDirectory(tree: Tree, dir: Path): (r: Tree)
    ensures dir in r && r.Keys == tree.Keys + {dir}
    ensures forall p :: p in tree ==> r[p] == tree[p]
    ensures dir !in tree ==> r[dir] == map[]
  {
    if dir in tree then tree else tree[dir := map[]]
  }

  class FileSystem {
    var tree: Tree

    constructor (tree: Tree)
      ensures this.tree == tree
    {
      this.tree := tree;
    }

    /** `File(dir, name).exists()`. */
    method Exists(dir: Path, name: string) returns (b: bool)
      ensures b == FileExists(tree, dir, name)
    {
      b := dir in tree && name in tree[dir];
    }

    /** `File(dir, name).lastModified()`: 0 when the file does not exist. */
    method LastModified(dir: Path, name: string) returns (t: nat)
      ensures t == if FileExists(tree, dir, name) then tree[dir][name].lastModified else 0
    {
      t := if dir in tree && name in tree[dir] then tree[dir][name].lastModified else 0;
    }

    /** `File(dir, name).setLastModified(t)` on an existing file: the bytes are kept. */
    method SetLastModified(dir: Path, name: string, t: nat)
      requires FileExists(tree, dir, name)
      modifies this
      ensures tree == old(tree)[dir := old(tree)[dir][name := FileEntry(old(tree)[dir][name].content, t)]]
    {
      tree := tree[dir := tree[dir][name := FileEntry(tree[dir][name].content, t)]];
    }

    /** `File(dir, name).delete()`. */
    method Delete(dir: Path, name: string)
      requires dir in tree
      modifies this
      ensures tree == old(tree)[dir := old(tree)[dir] - {name}]
    {
      tree := tree[dir := tree[dir] - {name}];
    }

    /**
     * `Files.copy(from, to, COPY_ATTRIBUTES, REPLACE_EXISTING)`: the target gets the
     * source's bytes and its last-modified time, replacing whatever was there.
     */
    method CopyWithAttributes(fromDir: Path, name: string, toDir: Path)
      requires FileExists(tree, fromDir, name) && toDir in tree
      modifies this
      ensures tree == old(tree)[toDir := old(tree)[toDir][name := old(tree)[fromDir][name]]]
    {
      tree := tree[toDir := tree[toDir][name := tree[fromDir][name]]];
    }

    /** `File(dir).mkdirs()`. */
    method Mkdirs(dir: Path)
      modifies this
      ensures tree == WithDirectory(old(tree), dir)
    {
      if dir !in tree {
        tree := tree[dir := map[]];
      }
    }
  }

  /** The elements of `s` that `keep` accepts, in their order in `s`. */
  function Filter<T>(s: seq<T>, keep: T -> bool): (r: seq<T>)
    ensures |r| <= |s|
    ensures forall i :: 0 <= i < |r| ==> r[i] in s && keep(r[i])
    ensures forall i :: 0 <= i < |s| && keep(s[i]) ==> s[i] in r
  {
    if s == [] then []
    else if keep(s[0]) then [s[0]] + Filter(s[1..], keep)
    else Filter(s[1..], keep)
  }

  /** Filtering a concatenation filters each part in turn, so the order of `s` is kept. */
  lemma {:induction false} FilterAppend<T>(a: seq<T>, b: seq<T>, keep: T -> bool)
    ensures Filter(a + b, keep) == Filter(a, keep) + Filter(b, keep)
  {
    if a == [] {
      assert a + b == b;
    } else {
      assert (a + b)[1..] == a[1..] + b;
      FilterAppend(a[1..], b, keep);
    }
  }

  /** Filtering twice with the same test changes nothing the second time. */
  lemma {:induction false} FilterIdempotent<T>(s: seq<T>, keep: T -> bool)
    ensures Filter(Filter(s, keep), keep) == Filter(s, keep)
  {
    if s != [] {
      FilterIdempotent(s[1..], keep);
    }
  }

  /**
   * `File.files(filter)`: no entries when `listFiles()` gives null, every entry when
   * there is no filter, and the entries the filter accepts otherwise.
   */
  function ListFiles<T>(listing: Option<seq<T>>, filter: Option<T -> bool>): (r: seq<T>)
    ensures listing.None? ==> r == []
    ensures listing.Some? && filter.None? ==> r == listing.value
    ensures listing.Some? && filter.Some? ==> forall i :: 0 <= i < |r| ==> r[i] in listing.value && filter.value(r[i])
    ensures listing.Some? && filter.Some? ==> forall i :: 0 <= i < |listing.value| && filter.value(listing.value[i]) ==> listing.value[i] in r
  {
    match listing
    case None => []
    case Some(entries) =>
      match filter
      case None => entries
      case Some(keep) => Filter(entries, keep)
  }
}
