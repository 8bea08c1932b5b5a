/**
 * The per-file decision of `copyTask` as a specification: copy a file the destination
 * lacks, overwrite one whose checksum differs, and otherwise skip it, only bringing its
 * last-modified time in line with the source.
 */
module SyncPolicy {

  import opened Wrappers
  import opened Fs
  import opened Checksums

  /** The branch a file takes. */
  datatype Action = Copied | Skipped | Overwritten

  /** The file of that name in the directory, if any. */
  function Lookup(dir: Directory, name: string): Option<FileEntry> {
    if name in dir then Some(dir[name]) else None
  }

  /**
   * The branch taken for source file `src` when the destination holds `dst`: skipped
   * when the two digests agree (`DecideByChecksum` shows this is the comparison of the
   * two checksum strings).
   */
  function Decide(src: FileEntry, dst: Option<FileEntry>, algorithm: Algorithm): (r: Action)
    ensures r == Copied <==> dst.None?
  {
    match dst
    case None => Copied
    case Some(d) => if algorithm(src.content) == algorithm(d.content) then Skipped else Overwritten
  }

  /** Comparing the checksum strings, as `copyTask` does, takes the same branch as `Decide`. */
  lemma DecideByChecksum(src: FileEntry, dst: Option<FileEntry>, algorithm: Algorithm)
    ensures Decide(src, dst, algorithm) == Skipped <==>
      dst.Some? && Fingerprint(algorithm, src.content) == Fingerprint(algorithm, dst.value.content)
    ensures Decide(src, dst, algorithm) == Overwritten <==>
      dst.Some? && Fingerprint(algorithm, src.content) != Fingerprint(algorithm, dst.value.content)
  {
    if dst.Some? {
      FingerprintMatchesDigest(algorithm, src.content, dst.value.content);
    }
  }

  /** The destination file once the source file `src` has been synced onto `dst`. */
  function Synced(src: FileEntry, dst: Option<FileEntry>, algorithm: Algorithm): (r: FileEntry)
    ensures r.lastModified == src.lastModified && algorithm(r.content) == algorithm(src.content)
  {
    if Decide(src, dst, algorithm) == Skipped then FileEntry(dst.value.content, src.lastModified) else src
  }

  /**
   * What one file's sync promises: the destination ends with the source's time; a copied
   * or overwritten file ends with the source's bytes; a skipped file keeps its bytes.
   */
  lemma SyncedSpec(src: FileEntry, dst: Option<FileEntry>, algorithm: Algorithm)
    ensures Synced(src, dst, algorithm).lastModified == src.lastModified
    ensures Decide(src, dst, algorithm) != Skipped ==> Synced(src, dst, algorithm) == src
    ensures Decide(src, dst, algorithm) == Skipped ==> Synced(src, dst, algorithm).content == dst.value.content
    ensures Decide(src, dst, algorithm) == Copied <==> dst.None?
  {
  }

  /** A destination file with the source's bytes is never copied again, whatever its time. */
  lemma SameContentSkipped(src: FileEntry, dst: FileEntry, algorithm: Algorithm)
    requires src.content == dst.content
    ensures Decide(src, Some(dst), algorithm) == Skipped
    ensures Synced(src, Some(dst), algorithm) == FileEntry(dst.content, src.lastModified)
  {
  }

  /** The destination directory once the named files of `src` have been synced into it. */
  function SyncNames(dst: Directory, src: Directory, names: set<string>, algorithm: Algorithm): Directory
    requires names <= src.Keys
  {
    map n | n in dst.Keys + names :: if n in names then Synced(src[n], Lookup(dst, n), algorithm) else dst[n]
  }

  /** The named files of `src` that are copied or overwritten rather than skipped. */
  function CopiedAmong(dst: Directory, src: Directory, names: set<string>, algorithm: Algorithm): set<string>
    requires names <= src.Keys
  {
    set n | n in names && Decide(src[n], Lookup(dst, n), algorithm) != Skipped
  }

  /** Syncing one more name updates that name's destination entry and nothing else. */
  lemma SyncNamesStep(dst: Directory, src: Directory, done: set<string>, name: string, algorithm: Algorithm)
    requires done <= src.Keys && name in src && name !in done
    ensures SyncNames(dst, src, done + {name}, algorithm)
         == SyncNames(dst, src, done, algorithm)[name := Synced(src[name], Lookup(dst, name), algorithm)]
  {
  }

  /** Syncing one more name adds one to the number of copies exactly when that file is not skipped. */
  lemma CopiedAmongStep(dst: Directory, src: Directory, done: set<string>, name: string, algorithm: Algorithm)
    requires done <= src.Keys && name in src && name !in done
    ensures |CopiedAmong(dst, src, done + {name}, algorithm)|
         == |CopiedAmong(dst, src, done, algorithm)|
          + (if Decide(src[name], Lookup(dst, name), algorithm) == Skipped then 0 else 1)
  {
    var before := CopiedAmong(dst, src, done, algorithm);
    assert name !in before;
    if Decide(src[name], Lookup(dst, name), algorithm) == Skipped {
      assert CopiedAmong(dst, src, done + {name}, algorithm) == before;
    } else {
      assert CopiedAmong(dst, src, done + {name}, algorithm) == before + {name};
    }
  }

  /** A name not yet synced still has its original destination entry. */
  lemma SyncNamesUntouched(dst: Directory, src: Directory, done: set<string>, name: string, algorithm: Algorithm)
    requires done <= src.Keys && name !in done
    ensures Lookup(SyncNames(dst, src, done, algorithm), name) == Lookup(dst, name)
  {
  }

  /** The destination directory once every file of `src` has been synced into it. */
  function SyncDir(dst: Directory, src: Directory, algorithm: Algorithm): (r: Directory)
    ensures r.Keys == dst.Keys + src.Keys
  {
    SyncNames(dst, src, src.Keys, algorithm)
  }

  /** The files of `src` that a sync into `dst` copies or overwrites. */
  function CopiedNames(dst: Directory, src: Directory, algorithm: Algorithm): set<string> {
    CopiedAmong(dst, src, src.Keys, algorithm)
  }

  /**
   * A project's sync: every source file has its synced counterpart in the destination,
   * and every destination file without a source counterpart is left as it was.
   */
  lemma SyncDirSpec(dst: Directory, src: Directory, algorithm: Algorithm)
    ensures SyncDir(dst, src, algorithm).Keys == dst.Keys + src.Keys
    ensures forall n :: n in src ==>
      SyncDir(dst, src, algorithm)[n] == Synced(src[n], Lookup(dst, n), algorithm)
    ensures forall n :: n in dst && n !in src ==> SyncDir(dst, src, algorithm)[n] == dst[n]
    ensures CopiedNames(dst, src, algorithm) <= src.Keys
  {
  }

  /**
   * Syncing the same source again finds every file already in place: nothing is copied
   * and the destination does not change.
   */
  lemma SyncDirIdempotent(dst: Directory, src: Directory, algorithm: Algorithm)
    ensures CopiedNames(SyncDir(dst, src, algorithm), src, algorithm) == {}
    ensures SyncDir(SyncDir(dst, src, algorithm), src, algorithm) == SyncDir(dst, src, algorithm)
  {
    var once := SyncDir(dst, src, algorithm);
    forall n | n in src
      ensures Decide(src[n], Lookup(once, n), algorithm) == Skipped
      ensures Synced(src[n], Lookup(once, n), algorithm) == once[n]
    {
      var e := Synced(src[n], Lookup(dst, n), algorithm);
      assert once[n] == e;
      SyncedSpec(src[n], Lookup(dst, n), algorithm);
      SyncedSpec(src[n], Some(e), algorithm);
    }
    var twice := SyncDir(once, src, algorithm);
    assert twice.Keys == once.Keys;
    assert forall n :: n in twice ==> twice[n] == once[n];
  }

  /** A folder synced into itself (a source project that is its own destination) is left as it was. */
  lemma SyncDirSelf(dir: Directory, algorithm: Algorithm)
    ensures CopiedNames(dir, dir, algorithm) == {}
    ensures SyncDir(dir, dir, algorithm) == dir
  {
    forall n | n in dir
      ensures Decide(dir[n], Lookup(dir, n), algorithm) == Skipped
      ensures Synced(dir[n], Lookup(dir, n), algorithm) == dir[n]
    {
      SameContentSkipped(dir[n], dir[n], algorithm);
    }
  }

  /** A project synced into an empty folder has all of its files copied there. */
  lemma SyncIntoEmpty(src: Directory, algorithm: Algorithm)
    ensures SyncDir(map[], src, algorithm) == src
    ensures CopiedNames(map[], src, algorithm) == src.Keys
  {
    forall n | n in src
      ensures Synced(src[n], Lookup(map[], n), algorithm) == src[n]
    {
      assert Decide(src[n], None, algorithm) == Copied;
    }
  }

  /** After a sync the destination file has the source file's checksum, whichever way it got it. */
  lemma SyncedDigest(src: FileEntry, dst: Option<FileEntry>, algorithm: Algorithm)
    ensures algorithm(Synced(src, dst, algorithm).content) == algorithm(src.content)
  {
  }
}
