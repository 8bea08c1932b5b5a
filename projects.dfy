/**
 * `File.destination(list)`: a source project's id is its first four characters, trimmed,
 * and its destination is the first folder of the list whose trimmed name starts with
 * that id.
 */
module Projects {

  import opened Wrappers
  import opened Text
  import opened Fs

  /** Why `destination` throws. */
  datatype MatchError =
    | NameTooShort(name: string)      // `substring(0, 4)` on a name of fewer than four characters
    | InvalidProjectId(id: string)    // "Invalid source project id: found $id"

  /** `name.substring(0, 4).trim()`, and the check that it is four characters long. */
  function ProjectId(name: string): (r: Result<string, MatchError>)
    ensures r.Success? ==> |name| >= 4 && r.value == name[..4]
  {
    if |name| < 4 then Failure(NameTooShort(name))
    else
      var id := Trim(name[..4]);
      TrimIsInnerSlice(name[..4]);
      if |id| != 4 then Failure(InvalidProjectId(id)) else Success(id)
  }

  /**
   * A name has an id exactly when it has at least four characters and neither its first
   * nor its fourth character is whitespace; the id is then the first four characters.
   */
  lemma ProjectIdSpec(name: string)
    ensures ProjectId(name).Success? <==> |name| >= 4 && !IsWhitespace(name[0]) && !IsWhitespace(name[3])
    ensures ProjectId(name).Success? ==> ProjectId(name).value == name[..4]
    ensures |name| < 4 ==> ProjectId(name) == Failure(NameTooShort(name))
  {
    if |name| >= 4 {
      var p := name[..4];
      TrimUnchanged(p);
      TrimIsInnerSlice(p);
    }
  }

  /** The test of `list.find`: the folder's trimmed name starts with the id. */
  predicate Matches(folder: Path, id: string) {
    StartsWith(Trim(Name(folder)), id)
  }

  /** Kotlin's `find`, as an index: the position of the first element `test` accepts. */
  function FirstIndex<T>(list: seq<T>, test: T -> bool): (r: Option<nat>)
    ensures r.None? <==> forall j :: 0 <= j < |list| ==> !test(list[j])
    ensures r.Some? ==> r.value < |list| && test(list[r.value])
    ensures r.Some? ==> forall j :: 0 <= j < r.value ==> !test(list[j])
  {
    if list == [] then None
    else if test(list[0]) then Some(0)
    else match FirstIndex(list[1..], test)
      case None => None
      case Some(k) => Some(k + 1)
  }

  /** The index of the first folder of the list whose trimmed name starts with the id. */
  function FirstMatch(list: seq<Path>, id: string): Option<nat> {
    FirstIndex(list, (folder: Path) => Matches(folder, id))
  }

  /** `File.destination(list)`: the matching folder, `None` for null, or the exception thrown. */
  function Destination(name: string, list: seq<Path>): (r: Result<Option<Path>, MatchError>)
    ensures r.Failure? <==> ProjectId(name).Failure?
    ensures r.Success? && r.value.Some? ==> r.value.value in list && Matches(r.value.value, ProjectId(name).value)
  {
    match ProjectId(name)
    case Failure(e) => Failure(e)
    case Success(id) =>
      match FirstMatch(list, id)
      case None => Success(None)
      case Some(k) => Success(Some(list[k]))
  }

  /**
   * What `destination` promises: it fails exactly when the name has no id; otherwise it
   * gives null exactly when no folder matches, and else the first matching folder of the
   * list, which is a member of the list.
   */
  lemma DestinationSpec(name: string, list: seq<Path>)
    ensures Destination(name, list).Failure? <==> ProjectId(name).Failure?
    ensures Destination(name, list).Success? ==>
      var id := ProjectId(name).value;
      && (Destination(name, list).value.None? <==> forall j :: 0 <= j < |list| ==> !Matches(list[j], id))
      && (Destination(name, list).value.Some? ==>
            exists k :: 0 <= k < |list| && list[k] == Destination(name, list).value.value
              && Matches(list[k], id) && forall j :: 0 <= j < k ==> !Matches(list[j], id))
  {
  }

  /** Appending folders to the list never changes which folder an id already resolved to. */
  lemma {:induction false} FirstIndexStable<T>(list: seq<T>, more: seq<T>, test: T -> bool)
    requires FirstIndex(list, test).Some?
    ensures FirstIndex(list + more, test) == FirstIndex(list, test)
  {
    if !test(list[0]) {
      assert (list + more)[1..] == list[1..] + more;
      FirstIndexStable(list[1..], more, test);
    }
  }

  /**
   * Registering an unmatched project: the folder `to/name` that `copyTask` creates and
   * appends to the list is where every project with the same id resolves from then on,
   * whatever else is appended after it.
   */
  lemma RegisteredFolderResolves(name: string, list: seq<Path>, to: Path, other: string, more: seq<Path>)
    requires Destination(name, list) == Success(None)
    requires ProjectId(other) == ProjectId(name)
    ensures Destination(other, list + [to + [name]] + more) == Success(Some(to + [name]))
  {
    ProjectIdSpec(name);
    var id := ProjectId(name).value;
    var folder := to + [name];
    assert Name(folder) == name;
    TrimKeepsPrefix(name, id);
    var extended := list + [folder];
    var test := (f: Path) => Matches(f, id);
    assert FirstIndex(extended, test) == Some(|list|) by {
      assert extended[|list|] == folder;
      assert forall j :: 0 <= j < |list| ==> extended[j] == list[j];
    }
    FirstIndexStable(extended, more, test);
  }
}
