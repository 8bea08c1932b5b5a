/**
 * `copyTask`: for each source project, find or create its destination folder, then sync
 * every file of the project into it and count the files copied. The file tasks of one
 * project run here one after the other; each writes only its own destination file.
 */
module CopyTask {

  import opened Wrappers
  import opened Fs
  import opened Checksums
  import opened Projects
  import opened Counters
  import opened SyncPolicy

  /**
   * The body of one `async` file task: sync the source file `sp/name` into the
   * destination folder `dp`, and tap the counter when a copy was made.
   */
  method SyncFile(fs: FileSystem, counter: Counter, sp: Path, dp: Path, name: string, algorithm: Algorithm)
    returns (action: Action)
    requires FileExists(fs.tree, sp, name) && dp in fs.tree
    modifies fs, counter
    ensures action == Decide(old(fs.tree)[sp][name], Lookup(old(fs.tree)[dp], name), algorithm)
    ensures fs.tree == old(fs.tree)[dp := old(fs.tree)[dp][name :=
      Synced(old(fs.tree)[sp][name], Lookup(old(fs.tree)[dp], name), algorithm)]]
    ensures counter.count == old(counter.count) + (if action == Skipped then 0 else 1)
  {
    ghost var t: Tree := fs.tree;
    ghost var src: FileEntry := t[sp][name];
    ghost var dst: Option<FileEntry> := Lookup(t[dp], name);
    var present := fs.Exists(dp, name);
    if present {
      var sc, _ := Checksum(fs, sp, name, algorithm);
      var dc, _ := Checksum(fs, dp, name, algorithm);
      assert sc == Some(Fingerprint(algorithm, src.content));
      assert dc == Some(Fingerprint(algorithm, dst.value.content));
      DecideByChecksum(src, dst, algorithm);
      if sc == dc {
        assert Decide(src, dst, algorithm) == Skipped;
        var sd := fs.LastModified(sp, name);
        var dd := fs.LastModified(dp, name);
        if sd != dd {
          fs.SetLastModified(dp, name, sd);
        } else {
          assert t[dp][name] == FileEntry(dst.value.content, sd);
          assert t[dp][name := t[dp][name]] == t[dp];
          assert t[dp := t[dp]] == t;
        }
        return Skipped;
      }
      fs.Delete(dp, name);
      assert fs.tree[dp][name := src] == t[dp][name := src];
    }
    fs.CopyWithAttributes(sp, name, dp);
    var _ := counter.Tap();
    action := if present then Overwritten else Copied;
  }

  /**
   * `sp.files { it.isFile }.map { async { ... } }.awaitAll()`: every regular file of the
   * source project is synced into `dp`, in whatever order the listing gives them.
   */
  method SyncProject(fs: FileSystem, counter: Counter, sp: Path, dp: Path, algorithm: Algorithm)
    requires dp in fs.tree
    modifies fs, counter
    ensures fs.tree == old(fs.tree)[dp := SyncDir(old(fs.tree)[dp], Files(old(fs.tree), sp), algorithm)]
    ensures counter.count == old(counter.count) + |CopiedNames(old(fs.tree)[dp], Files(old(fs.tree), sp), algorithm)|
  {
    ghost var start := fs.tree;
    ghost var src := Files(fs.tree, sp);
    ghost var dst := fs.tree[dp];
    var todo := if sp in fs.tree then fs.tree[sp].Keys else {};
    ghost var done: set<string> := {};
    assert SyncNames(dst, src, done, algorithm) == dst;
    assert start[dp := dst] == start;
    while todo != {}
      invariant todo <= src.Keys && done == src.Keys - todo
      invariant fs.tree == start[dp := SyncNames(dst, src, done, algorithm)]
      invariant counter.count == old(counter.count) + |CopiedAmong(dst, src, done, algorithm)|
      decreases todo
    {
      var name :| name in todo;
      SyncNext(fs, counter, sp, dp, name, algorithm, start, src, dst, done);
      CopiedAmongStep(dst, src, done, name, algorithm);
      MoveDone(src.Keys, todo, done, name);
      todo := todo - {name};
      done := done + {name};
    }
    assert done == src.Keys;
  }

  /** One file task of `SyncProject`, with the bookkeeping of which names are done. */
  method SyncNext(fs: FileSystem, counter: Counter, sp: Path, dp: Path, name: string, algorithm: Algorithm,
                  ghost start: Tree, ghost src: Directory, ghost dst: Directory, ghost done: set<string>)
    requires dp in start && dst == start[dp] && src == Files(start, sp)
    requires done <= src.Keys && name in src && name !in done
    requires fs.tree == start[dp := SyncNames(dst, src, done, algorithm)]
    modifies fs, counter
    ensures fs.tree == start[dp := SyncNames(dst, src, done + {name}, algorithm)]
    ensures counter.count == old(counter.count)
      + (if Decide(src[name], Lookup(dst, name), algorithm) == Skipped then 0 else 1)
  {
    ghost var before := SyncNames(dst, src, done, algorithm);
    ghost var entry := Synced(src[name], Lookup(dst, name), algorithm);
    SyncNamesUntouched(dst, src, done, name, algorithm);
    if sp == dp {
      assert Lookup(fs.tree[dp], name) == Lookup(src, name);
    }
    assert fs.tree[sp][name] == src[name] && Lookup(fs.tree[dp], name) == Lookup(dst, name);
    ghost var pre := fs.tree;
    var _ := SyncFile(fs, counter, sp, dp, name, algorithm);
    SyncNamesStep(dst, src, done, name, algorithm);
    assert pre[dp] == before;
    assert fs.tree == pre[dp := before[name := entry]];
    UpdateTwice(start, dp, before, before[name := entry]);
  }

  lemma MoveDone<T>(all: set<T>, todo: set<T>, done: set<T>, x: T)
    requires todo <= all && done == all - todo && x in todo
    ensures todo - {x} <= all && done + {x} == all - (todo - {x})
  {
  }

  lemma UpdateTwice<K, V>(m: map<K, V>, k: K, v: V, w: V)
    ensures m[k := v][k := w] == m[k := w]
  {
  }

  /** What `copyTask` works with between projects: the filesystem, `dps` and the count. */
  datatype RunState = RunState(tree: Tree, dps: seq<Path>, copied: nat)

  /** Where a run stopped: its last state, and the exception that ended it, if one did. */
  datatype RunOutcome = RunOutcome(state: RunState, error: Option<MatchError>)

  /** `it.isDirectory`, the filter of both listings. */
  function IsDirectoryIn(tree: Tree): Path -> bool {
    (p: Path) => p in tree
  }

  /** The destination folder of project `sp`: the match in `dps`, or else the new folder `to/sp.name`. */
  function Target(dps: seq<Path>, sp: Path, to: Path): Path {
    match Destination(Name(sp), dps)
    case Success(Some(dp)) => dp
    case _ => to + [Name(sp)]
  }

  /**
   * One iteration of `sps.forEach`: the destination of project `sp`, created under `to`
   * and appended to `dps` when none matches, then the sync of its files into it.
   */
  function Step(st: RunState, sp: Path, to: Path, algorithm: Algorithm): (r: Result<RunState, MatchError>)
    ensures r.Failure? <==> ProjectId(Name(sp)).Failure?
    ensures r.Success? ==> st.copied <= r.value.copied && st.tree.Keys <= r.value.tree.Keys && st.dps <= r.value.dps
  {
    match Destination(Name(sp), st.dps)
    case Failure(e) => Failure(e)
    case Success(found) =>
      var dp := Target(st.dps, sp, to);
      var tree := if found.Some? then st.tree else WithDirectory(st.tree, dp);
      var dps := if found.Some? then st.dps else st.dps + [dp];
      var dst, src := Files(tree, dp), Files(tree, sp);
      Success(RunState(tree[dp := SyncDir(dst, src, algorithm)], dps, st.copied + |CopiedNames(dst, src, algorithm)|))
  }

  /** The projects `sps` processed in order, stopping at the first exception. */
  function Run(st: RunState, sps: seq<Path>, to: Path, algorithm: Algorithm): (r: RunOutcome)
    ensures st.copied <= r.state.copied && st.tree.Keys <= r.state.tree.Keys
    decreases |sps|
  {
    if sps == [] then RunOutcome(st, None)
    else match Step(st, sps[0], to, algorithm)
      case Failure(e) => RunOutcome(st, Some(e))
      case Success(next) => Run(next, sps[1..], to, algorithm)
  }

  /**
   * One iteration of `sps.forEach` on the filesystem: resolve the destination of `sp`
   * (creating and registering it when none matches) and sync the project into it.
   */
  method ProcessProject(fs: FileSystem, counter: Counter, sp: Path, dps: seq<Path>, to: Path, algorithm: Algorithm)
    returns (dps': seq<Path>, error: Option<MatchError>)
    requires forall j :: 0 <= j < |dps| ==> dps[j] in fs.tree
    modifies fs, counter
    ensures forall j :: 0 <= j < |dps'| ==> dps'[j] in fs.tree
    ensures match Step(RunState(old(fs.tree), dps, old(counter.count)), sp, to, algorithm)
      case Failure(e) => error == Some(e) && dps' == dps && fs.tree == old(fs.tree) && counter.count == old(counter.count)
      case Success(next) => error.None? && next == RunState(fs.tree, dps', counter.count)
  {
    var found := Destination(Name(sp), dps);
    if found.Failure? {
      return dps, Some(found.error);
    }
    var dp: Path;
    dps' := dps;
    if found.value.Some? {
      dp := found.value.value;
      assert dp in dps;
    } else {
      dp := to + [Name(sp)];
      fs.Mkdirs(dp);
      dps' := dps + [dp];
    }
    SyncProject(fs, counter, sp, dp, algorithm);
    error := None;
  }

  /** `sps.forEach { ... }`: the projects processed in order, until one throws. */
  method ProcessAll(fs: FileSystem, counter: Counter, sps: seq<Path>, dps: seq<Path>, to: Path, algorithm: Algorithm)
    returns (error: Option<MatchError>)
    requires forall j :: 0 <= j < |dps| ==> dps[j] in fs.tree
    modifies fs, counter
    ensures var r := Run(RunState(old(fs.tree), dps, old(counter.count)), sps, to, algorithm);
      fs.tree == r.state.tree && counter.count == r.state.copied && error == r.error
  {
    ghost var target := Run(RunState(fs.tree, dps, counter.count), sps, to, algorithm);
    var known := dps;
    var i := 0;
    while i < |sps|
      invariant 0 <= i <= |sps|
      invariant forall j :: 0 <= j < |known| ==> known[j] in fs.tree
      invariant Run(RunState(fs.tree, known, counter.count), sps[i..], to, algorithm) == target
    {
      assert sps[i..][0] == sps[i] && sps[i..][1..] == sps[i + 1..];
      known, error := ProcessProject(fs, counter, sps[i], known, to, algorithm);
      if error.Some? {
        return;
      }
      i := i + 1;
    }
    error := None;
  }

  /**
   * `copyTask` after its two inputs are read: `fromListing` and `toListing` are what
   * `listFiles()` gives for the source and destination roots. Returns the count it
   * reports, and the exception that aborted it, if any.
   */
  method CopyTask(fs: FileSystem, to: Path, fromListing: Option<seq<Path>>, toListing: Option<seq<Path>>,
                  algorithm: Algorithm)
    returns (copied: nat, error: Option<MatchError>)
    modifies fs
    ensures var r := Run(RunState(old(fs.tree), ListFiles(toListing, Some(IsDirectoryIn(old(fs.tree)))), 0),
                         ListFiles(fromListing, Some(IsDirectoryIn(old(fs.tree)))), to, algorithm);
      fs.tree == r.state.tree && copied == r.state.copied && error == r.error
  {
    var counter := new Counter();
    var sps := ListFiles(fromListing, Some(IsDirectoryIn(fs.tree)));
    var dps := ListFiles(toListing, Some(IsDirectoryIn(fs.tree)));
    error := ProcessAll(fs, counter, sps, dps, to, algorithm);
    copied := counter.count;
  }
}
