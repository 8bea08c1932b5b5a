/**
 * Properties of a whole `copyTask` run over the source projects: where it stops, what
 * it leaves in place, and that running it again on its own result copies nothing.
 */
module RunProperties {

  import opened Wrappers
  import opened Text
  import opened HexFormat
  import opened Fs
  import opened Checksums
  import opened Projects
  import opened SyncPolicy
  import opened CopyTask

  /** Every project of the list has an id, and no two of them share one. */
  predicate DistinctIds(sps: seq<Path>) {
    && (forall i :: 0 <= i < |sps| ==> ProjectId(Name(sps[i])).Success?)
    && (forall i, j :: 0 <= i < j < |sps| ==> ProjectId(Name(sps[i])) != ProjectId(Name(sps[j])))
  }

  /**
   * Project `sp` is in place in `st`: it resolves to a destination folder that exists,
   * and syncing it there again would copy nothing and change nothing.
   */
  predicate SettledAt(st: RunState, sp: Path, algorithm: Algorithm) {
    match Destination(Name(sp), st.dps)
    case Success(Some(dp)) =>
      && dp in st.tree
      && SyncDir(st.tree[dp], Files(st.tree, sp), algorithm) == st.tree[dp]
      && CopiedNames(st.tree[dp], Files(st.tree, sp), algorithm) == {}
    case _ => false
  }

  /** A project's folder always matches its own id. */
  lemma OwnIdMatches(sp: Path)
    requires ProjectId(Name(sp)).Success?
    ensures Matches(sp, ProjectId(Name(sp)).value)
  {
    ProjectIdSpec(Name(sp));
    TrimKeepsPrefix(Name(sp), ProjectId(Name(sp)).value);
  }

  /** A folder matches at most one id: two ids it matches are the same. */
  lemma MatchesOneId(folder: Path, a: string, b: string)
    requires Matches(folder, a) && Matches(folder, b) && |a| == |b|
    ensures a == b
  {
    var t := Trim(Name(folder));
    assert a == t[..|a|] && b == t[..|b|];
  }

  /** A successful iteration, written out: the destination folder, created if need be, synced. */
  lemma StepUnfold(st: RunState, sp: Path, to: Path, algorithm: Algorithm)
    requires ProjectId(Name(sp)).Success?
    ensures Step(st, sp, to, algorithm).Success?
    ensures var dp := Target(st.dps, sp, to);
      var found := Destination(Name(sp), st.dps).value.Some?;
      var tree := if found then st.tree else WithDirectory(st.tree, dp);
      Step(st, sp, to, algorithm).value
        == RunState(tree[dp := SyncDir(Files(tree, dp), Files(tree, sp), algorithm)],
                    if found then st.dps else st.dps + [dp],
                    st.copied + |CopiedNames(Files(tree, dp), Files(tree, sp), algorithm)|)
  {
  }

  /**
   * Where one iteration puts a project with an id: in a folder that matches the id, and
   * that it resolves to from then on; `dps` grows by at most the new folder `to/sp.name`.
   */
  lemma StepTarget(st: RunState, sp: Path, to: Path, algorithm: Algorithm)
    requires ProjectId(Name(sp)).Success?
    ensures Step(st, sp, to, algorithm).Success?
    ensures var next, dp := Step(st, sp, to, algorithm).value, Target(st.dps, sp, to);
      && Matches(dp, ProjectId(Name(sp)).value)
      && (next.dps == st.dps || next.dps == st.dps + [to + [Name(sp)]])
      && Destination(Name(sp), next.dps) == Success(Some(dp))
  {
    StepUnfold(st, sp, to, algorithm);
    var found := Destination(Name(sp), st.dps).value;
    var dp := Target(st.dps, sp, to);
    var next := Step(st, sp, to, algorithm).value;
    if found.None? {
      OwnIdMatches(to + [Name(sp)]);
      RegisteredFolderResolves(Name(sp), st.dps, to, Name(sp), []);
      assert st.dps + [dp] + [] == next.dps;
    }
  }

  /**
   * What one iteration does to the folders when the project has an id: its destination
   * folder matches the id and is resolved to from then on, `dps` grows by at most the new
   * folder `to/sp.name`, no folder disappears and only the destination folder changes.
   */
  lemma StepFrame(st: RunState, sp: Path, to: Path, algorithm: Algorithm)
    requires ProjectId(Name(sp)).Success?
    ensures Step(st, sp, to, algorithm).Success?
    ensures var next := Step(st, sp, to, algorithm).value;
      var dp := Target(st.dps, sp, to);
      && Matches(dp, ProjectId(Name(sp)).value)
      && (next.dps == st.dps || next.dps == st.dps + [to + [Name(sp)]])
      && st.tree.Keys <= next.tree.Keys
      && st.copied <= next.copied
      && (forall p :: p != dp ==> Files(next.tree, p) == Files(st.tree, p))
      && Destination(Name(sp), next.dps) == Success(Some(dp))
  {
    StepTarget(st, sp, to, algorithm);
    StepUnfold(st, sp, to, algorithm);
  }

  /** After one iteration the project is in place: syncing it again would change nothing. */
  lemma StepSettles(st: RunState, sp: Path, to: Path, algorithm: Algorithm)
    requires ProjectId(Name(sp)).Success?
    ensures Step(st, sp, to, algorithm).Success?
    ensures SettledAt(Step(st, sp, to, algorithm).value, sp, algorithm)
  {
    StepFrame(st, sp, to, algorithm);
    StepUnfold(st, sp, to, algorithm);
    var found := Destination(Name(sp), st.dps).value;
    var dp := Target(st.dps, sp, to);
    var next := Step(st, sp, to, algorithm).value;
    var tree := if found.Some? then st.tree else WithDirectory(st.tree, dp);
    var dst, src := Files(tree, dp), Files(tree, sp);
    assert next.tree[dp] == SyncDir(dst, src, algorithm);
    if sp == dp {
      SyncDirSelf(dst, algorithm);
    } else {
      assert Files(next.tree, sp) == src;
      SyncDirIdempotent(dst, src, algorithm);
    }
  }

  /** One iteration throws exactly when the project has no id, and then that exception. */
  lemma StepFails(st: RunState, sp: Path, to: Path, algorithm: Algorithm)
    ensures Step(st, sp, to, algorithm).Failure? <==> ProjectId(Name(sp)).Failure?
    ensures Step(st, sp, to, algorithm).Failure? ==> Step(st, sp, to, algorithm).error == ProjectId(Name(sp)).error
  {
  }

  /** A run ends without an exception exactly when every project has an id. */
  lemma {:induction false} RunCompletes(st: RunState, sps: seq<Path>, to: Path, algorithm: Algorithm)
    ensures Run(st, sps, to, algorithm).error.None?
        <==> forall i :: 0 <= i < |sps| ==> ProjectId(Name(sps[i])).Success?
    decreases |sps|
  {
    if sps != [] {
      StepFails(st, sps[0], to, algorithm);
      if ProjectId(Name(sps[0])).Success? {
        var next := Step(st, sps[0], to, algorithm).value;
        assert Run(st, sps, to, algorithm) == Run(next, sps[1..], to, algorithm);
        RunCompletes(next, sps[1..], to, algorithm);
        assert forall i :: 0 < i < |sps| ==> sps[i] == sps[1..][i - 1];
      } else {
        assert Run(st, sps, to, algorithm).error.Some?;
      }
    }
  }

  /**
   * Processing `a + b` is processing `a`, then, unless that threw, processing `b` from
   * where `a` left off.
   */
  lemma {:induction false} RunAppend(st: RunState, a: seq<Path>, b: seq<Path>, to: Path, algorithm: Algorithm)
    ensures var first := Run(st, a, to, algorithm);
      Run(st, a + b, to, algorithm) == if first.error.Some? then first else Run(first.state, b, to, algorithm)
    decreases |a|
  {
    if a == [] {
      assert a + b == b;
    } else {
      assert (a + b)[0] == a[0] && (a + b)[1..] == a[1..] + b;
      match Step(st, a[0], to, algorithm)
      case Failure(_) =>
      case Success(next) => RunAppend(next, a[1..], b, to, algorithm);
    }
  }

  /**
   * A run stops at the first project without an id, with that project's exception, and
   * leaves exactly what the projects before it did: their copies are not undone.
   */
  lemma RunAbortsAt(st: RunState, sps: seq<Path>, i: nat, to: Path, algorithm: Algorithm)
    requires i < |sps| && ProjectId(Name(sps[i])).Failure?
    requires forall j :: 0 <= j < i ==> ProjectId(Name(sps[j])).Success?
    ensures Run(st, sps, to, algorithm)
         == RunOutcome(Run(st, sps[..i], to, algorithm).state, Some(ProjectId(Name(sps[i])).error))
  {
    RunCompletes(st, sps[..i], to, algorithm);
    RunAppend(st, sps[..i], sps[i..], to, algorithm);
    assert sps[..i] + sps[i..] == sps;
    StepFails(Run(st, sps[..i], to, algorithm).state, sps[i], to, algorithm);
  }

  /**
   * A run only adds: `dps` keeps its folders in order and gains only folders `to/sp.name`
   * of its projects, no folder disappears and the count never goes down.
   */
  lemma {:induction false} RunGrows(st: RunState, sps: seq<Path>, to: Path, algorithm: Algorithm)
    ensures var r := Run(st, sps, to, algorithm).state;
      && st.dps <= r.dps && st.tree.Keys <= r.tree.Keys && st.copied <= r.copied
      && forall k :: |st.dps| <= k < |r.dps| ==> exists i :: 0 <= i < |sps| && r.dps[k] == to + [Name(sps[i])]
    decreases |sps|
  {
    if sps != [] && ProjectId(Name(sps[0])).Success? {
      StepFrame(st, sps[0], to, algorithm);
      var next := Step(st, sps[0], to, algorithm).value;
      RunGrows(next, sps[1..], to, algorithm);
      var r := Run(st, sps, to, algorithm).state;
      forall k | |st.dps| <= k < |r.dps|
        ensures exists i :: 0 <= i < |sps| && r.dps[k] == to + [Name(sps[i])]
      {
        if k < |next.dps| {
          assert r.dps[k] == next.dps[k] == to + [Name(sps[0])];
        } else {
          var i :| 0 <= i < |sps[1..]| && r.dps[k] == to + [Name(sps[1..][i])];
          assert r.dps[k] == to + [Name(sps[i + 1])];
        }
      }
    }
  }

  /** A project in place stays in place while projects with other ids are processed. */
  lemma {:induction false} RunKeepsSettled(st: RunState, sps: seq<Path>, sp: Path, to: Path, algorithm: Algorithm)
    requires SettledAt(st, sp, algorithm)
    requires forall j :: 0 <= j < |sps| ==>
      ProjectId(Name(sps[j])).Success? && ProjectId(Name(sps[j])) != ProjectId(Name(sp))
    ensures SettledAt(Run(st, sps, to, algorithm).state, sp, algorithm)
    decreases |sps|
  {
    if sps != [] {
      var id := ProjectId(Name(sp)).value;
      var other := ProjectId(Name(sps[0])).value;
      StepFrame(st, sps[0], to, algorithm);
      var next := Step(st, sps[0], to, algorithm).value;
      var t := Target(st.dps, sps[0], to);
      var k := FirstMatch(st.dps, id).value;
      var dp := st.dps[k];
      assert Matches(dp, id);
      OwnIdMatches(sp);
      if dp == t {
        MatchesOneId(dp, id, other);
      }
      if sp == t {
        MatchesOneId(sp, id, other);
      }
      if next.dps != st.dps {
        FirstIndexStable(st.dps, [to + [Name(sps[0])]], (folder: Path) => Matches(folder, id));
      }
      assert Files(next.tree, dp) == Files(st.tree, dp) && Files(next.tree, sp) == Files(st.tree, sp);
      assert forall j :: 0 <= j < |sps| - 1 ==> sps[1..][j] == sps[j + 1];
      RunKeepsSettled(next, sps[1..], sp, to, algorithm);
    }
  }

  /** A run over projects with distinct ids leaves every one of them in place. */
  lemma {:induction false} RunSettles(st: RunState, sps: seq<Path>, to: Path, algorithm: Algorithm)
    requires DistinctIds(sps)
    ensures forall i :: 0 <= i < |sps| ==> SettledAt(Run(st, sps, to, algorithm).state, sps[i], algorithm)
    decreases |sps|
  {
    if sps != [] {
      StepSettles(st, sps[0], to, algorithm);
      var next := Step(st, sps[0], to, algorithm).value;
      assert forall j :: 0 <= j < |sps| - 1 ==> sps[1..][j] == sps[j + 1];
      RunSettles(next, sps[1..], to, algorithm);
      RunKeepsSettled(next, sps[1..], sps[0], to, algorithm);
    }
  }

  /** Processing projects that are all in place changes nothing, copies nothing and ends normally. */
  lemma {:induction false} SettledRunIsNoop(st: RunState, sps: seq<Path>, to: Path, algorithm: Algorithm)
    requires forall i :: 0 <= i < |sps| ==> SettledAt(st, sps[i], algorithm)
    ensures Run(st, sps, to, algorithm) == RunOutcome(st, None)
    decreases |sps|
  {
    if sps != [] {
      var dp := Destination(Name(sps[0]), st.dps).value.value;
      assert st.tree[dp := st.tree[dp]] == st.tree;
      assert Step(st, sps[0], to, algorithm) == Success(st);
      assert forall j :: 0 <= j < |sps| - 1 ==> sps[1..][j] == sps[j + 1];
      SettledRunIsNoop(st, sps[1..], to, algorithm);
    }
  }

  /**
   * Running `copyTask` again, over the same source projects, on the folders and the
   * destination list the first run left, copies nothing and changes nothing, as long
   * as no two source projects share an id.
   */
  lemma RerunCopiesNothing(st: RunState, sps: seq<Path>, to: Path, algorithm: Algorithm)
    requires DistinctIds(sps)
    ensures var r := Run(st, sps, to, algorithm);
      var again := RunState(r.state.tree, r.state.dps, 0);
      r.error.None? && Run(again, sps, to, algorithm) == RunOutcome(again, None)
  {
    RunCompletes(st, sps, to, algorithm);
    RunSettles(st, sps, to, algorithm);
    var r := Run(st, sps, to, algorithm);
    var again := RunState(r.state.tree, r.state.dps, 0);
    assert forall i :: 0 <= i < |sps| ==> SettledAt(again, sps[i], algorithm) by {
      assert forall i :: 0 <= i < |sps| ==> SettledAt(r.state, sps[i], algorithm);
    }
    SettledRunIsNoop(again, sps, to, algorithm);
  }

  /** Creating a missing folder and syncing a project into it leaves a copy of the project there. */
  lemma SyncIntoNewFolder(tree: Tree, dp: Path, sp: Path, algorithm: Algorithm)
    requires dp !in tree && dp != sp
    ensures var t := WithDirectory(tree, dp);
      && t[dp := SyncDir(Files(t, dp), Files(t, sp), algorithm)] == tree[dp := Files(tree, sp)]
      && |CopiedNames(Files(t, dp), Files(t, sp), algorithm)| == |Files(tree, sp).Keys|
  {
    var t := WithDirectory(tree, dp);
    assert t == tree[dp := map[]];
    assert Files(t, dp) == map[] && Files(t, sp) == Files(tree, sp);
    SyncIntoEmpty(Files(tree, sp), algorithm);
  }

  /**
   * A project whose id matches no folder is copied whole into the new folder `to/sp.name`,
   * every one of its files counting as a copy.
   */
  lemma StepIntoNewFolder(st: RunState, sp: Path, to: Path, algorithm: Algorithm)
    requires Destination(Name(sp), st.dps) == Success(None)
    requires to + [Name(sp)] !in st.tree && to + [Name(sp)] != sp
    ensures Step(st, sp, to, algorithm).Success?
    ensures var dp, next := to + [Name(sp)], Step(st, sp, to, algorithm).value;
      && next.tree == st.tree[dp := Files(st.tree, sp)]
      && next.dps == st.dps + [dp]
      && next.copied == st.copied + |Files(st.tree, sp).Keys|
  {
    StepUnfold(st, sp, to, algorithm);
    SyncIntoNewFolder(st.tree, to + [Name(sp)], sp, algorithm);
  }

  /** A project whose id matches a folder of `dps` is synced into that folder. */
  lemma StepIntoFolder(st: RunState, sp: Path, dp: Path, to: Path, algorithm: Algorithm)
    requires Destination(Name(sp), st.dps) == Success(Some(dp))
    ensures Step(st, sp, to, algorithm).Success?
    ensures var dst, src, next := Files(st.tree, dp), Files(st.tree, sp), Step(st, sp, to, algorithm).value;
      && next.tree == st.tree[dp := SyncDir(dst, src, algorithm)]
      && next.dps == st.dps
      && next.copied == st.copied + |CopiedNames(dst, src, algorithm)|
  {
    StepUnfold(st, sp, to, algorithm);
  }

  /**
   * Two source projects that share an id sync into the same folder, the second after the
   * first: a file both hold is left there with the second one's checksum, and the first
   * project's own files are untouched.
   */
  lemma SharedIdSecondWins(st: RunState, a: Path, b: Path, to: Path, algorithm: Algorithm, name: string)
    requires ProjectId(Name(a)).Success? && ProjectId(Name(b)) == ProjectId(Name(a))
    requires Target(st.dps, a, to) != a && Target(st.dps, a, to) != b
    requires name in Files(st.tree, b)
    ensures var r, dp := Run(st, [a, b], to, algorithm), Target(st.dps, a, to);
      && r.error.None?
      && Destination(Name(a), r.state.dps) == Success(Some(dp))
      && Files(r.state.tree, a) == Files(st.tree, a)
      && name in Files(r.state.tree, dp)
      && algorithm(Files(r.state.tree, dp)[name].content) == algorithm(Files(st.tree, b)[name].content)
  {
    var dp := Target(st.dps, a, to);
    StepFrame(st, a, to, algorithm);
    var s1 := Step(st, a, to, algorithm).value;
    assert Destination(Name(b), s1.dps) == Success(Some(dp));
    assert Files(s1.tree, b) == Files(st.tree, b) && Files(s1.tree, a) == Files(st.tree, a);
    StepIntoFolder(s1, b, dp, to, algorithm);
    var s2 := Step(s1, b, to, algorithm).value;
    RunPair(st, a, b, to, algorithm);
    SyncDirSpec(Files(s1.tree, dp), Files(s1.tree, b), algorithm);
    SyncedDigest(Files(st.tree, b)[name], Lookup(Files(s1.tree, dp), name), algorithm);
    assert Files(s2.tree, a) == Files(s1.tree, a);
  }

  /** Two projects in a row, both with an id: the run ends normally after the second step. */
  lemma RunPair(st: RunState, a: Path, b: Path, to: Path, algorithm: Algorithm)
    requires ProjectId(Name(a)).Success? && ProjectId(Name(b)).Success?
    ensures var s1 := Step(st, a, to, algorithm).value;
      Run(st, [a, b], to, algorithm) == RunOutcome(Step(s1, b, to, algorithm).value, None)
  {
    var s1 := Step(st, a, to, algorithm).value;
    var s2 := Step(s1, b, to, algorithm).value;
    assert [b][1..] == [];
    assert Run(s1, [b], to, algorithm) == Run(s2, [], to, algorithm);
    assert [a, b][1..] == [b];
    assert Run(st, [a, b], to, algorithm) == Run(s1, [b], to, algorithm);
  }

  /**
   * Two source projects that share an id never settle: when they hold a file of the same
   * name with different checksums, running again copies it again.
   */
  lemma SharedIdRerunCopies(st: RunState, a: Path, b: Path, to: Path, algorithm: Algorithm, name: string)
    requires ProjectId(Name(a)).Success? && ProjectId(Name(b)) == ProjectId(Name(a))
    requires Target(st.dps, a, to) != a && Target(st.dps, a, to) != b
    requires name in Files(st.tree, a) && name in Files(st.tree, b)
    requires algorithm(Files(st.tree, a)[name].content) != algorithm(Files(st.tree, b)[name].content)
    ensures var r := Run(st, [a, b], to, algorithm);
      r.error.None? && Run(RunState(r.state.tree, r.state.dps, 0), [a, b], to, algorithm).state.copied > 0
  {
    var dp := Target(st.dps, a, to);
    SharedIdSecondWins(st, a, b, to, algorithm, name);
    var r := Run(st, [a, b], to, algorithm).state;
    var again := RunState(r.tree, r.dps, 0);
    StepIntoFolder(again, a, dp, to, algorithm);
    var s3 := Step(again, a, to, algorithm).value;
    assert Decide(Files(r.tree, a)[name], Lookup(Files(r.tree, dp), name), algorithm) == Overwritten;
    assert name in CopiedNames(Files(r.tree, dp), Files(r.tree, a), algorithm);
    assert s3.copied > 0;
    RunGrows(s3, [b], to, algorithm);
    assert [a, b][1..] == [b];
    assert Run(again, [a, b], to, algorithm) == Run(s3, [b], to, algorithm);
  }
}
