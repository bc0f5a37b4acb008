/** An abstract tar archive: the ordered member list `TarFile.getmembers()`
    yields, plus the two member-level queries the zone loader uses,
    `getmember` and `extractfile`. The tar byte format itself is not modelled. */
module TarArchive {
  import opened Results
  import opened Exceptions

  newtype byte = b: int | 0 <= b < 256

  type Bytes = seq<byte>

  /** One archive member. `Dir` stands for every member kind that carries no
      data (directories, devices, fifos). */
  datatype Member =
    | File(name: string, data: Bytes)
    | HardLink(name: string, target: string)
    | SymLink(name: string, target: string)
    | Dir(name: string)
  {
    predicate IsLink() {
      HardLink? || SymLink?
    }
  }

  /** What `extractfile` hands back: a readable file object, or None. */
  datatype FileObject = Data(bytes: Bytes) | NoFileObject

  /** The index of the last of the first `limit` members named `name`, the one
      `getmember` picks when a name occurs more than once. */
  function LastNamed(ms: seq<Member>, name: string, limit: nat): (r: Option<nat>)
    requires limit <= |ms|
    ensures r.Some? ==> r.value < limit && ms[r.value].name == name
    ensures r.Some? ==> forall j :: r.value < j < limit ==> ms[j].name != name
    ensures r.None? <==> forall j :: 0 <= j < limit ==> ms[j].name != name
    decreases limit
  {
    if limit == 0 then None
    else if ms[limit - 1].name == name then Some(limit - 1)
    else LastNamed(ms, name, limit - 1)
  }

  /** `getmember(name)`: the last member of that name, KeyError when absent. */
  function GetMember(ms: seq<Member>, name: string): (r: Result<nat, Error>)
    ensures r.Ok? ==> r.value < |ms| && ms[r.value].name == name
    ensures r.Ok? ==> forall j :: r.value < j < |ms| ==> ms[j].name != name
    ensures r.Err? <==> forall j :: 0 <= j < |ms| ==> ms[j].name != name
    ensures r.Err? ==> r.error == KeyError(name)
  {
    match LastNamed(ms, name, |ms|)
    case Some(i) => Ok(i)
    case None => Err(KeyError(name))
  }

  /** The member the link at `i` names, as tarfile's `_find_link_target`
      finds it: for a hard link the last member before the link carrying the
      target name, for a symbolic link the last such member of the whole
      archive. None for a member that is not a link or a dangling target. */
  function LinkStep(ms: seq<Member>, i: nat): (r: Option<nat>)
    requires i < |ms|
    ensures !ms[i].IsLink() ==> r.None?
    ensures r.Some? ==> r.value < |ms| && ms[r.value].name == ms[i].target
    ensures r.Some? && ms[i].HardLink? ==> r.value < i
    ensures r.Some? && ms[i].HardLink? ==> forall j :: r.value < j < i ==> ms[j].name != ms[i].target
    ensures r.Some? && ms[i].SymLink? ==> forall j :: r.value < j < |ms| ==> ms[j].name != ms[i].target
    ensures ms[i].HardLink? ==> (r.None? <==> forall j :: 0 <= j < i ==> ms[j].name != ms[i].target)
    ensures ms[i].SymLink? ==> (r.None? <==> forall j :: 0 <= j < |ms| ==> ms[j].name != ms[i].target)
  {
    match ms[i]
    case HardLink(_, target) => LastNamed(ms, target, i)
    case SymLink(_, target) => LastNamed(ms, target, |ms|)
    case _ => None
  }

  /** `extractfile(ms[i])`. A regular file yields its data and a data-less
      member yields None. A link yields the file object of the member
      `LinkStep` finds, and a dangling target raises KeyError. `fuel` bounds
      the number of links followed; running out raises RecursionError, the
      error Python's recursion limit gives. Started at `|ms|` it runs out
      exactly on a cycle of links (see `TarArchiveLemmas`). */
  function ExtractFile(ms: seq<Member>, i: nat, fuel: nat): (r: Result<FileObject, Error>)
    requires i < |ms|
    ensures r.Ok? && r.value.Data? ==>
      exists j :: 0 <= j < |ms| && ms[j].File? && ms[j].data == r.value.bytes
    ensures ms[i].File? ==> r == Ok(Data(ms[i].data))
    ensures ms[i].Dir? ==> r == Ok(NoFileObject)
    ensures ms[i].IsLink() && fuel == 0 ==> r == Err(RecursionError)
    ensures ms[i].IsLink() && 0 < fuel && LinkStep(ms, i).None? ==> r == Err(KeyError(ms[i].target))
    ensures ms[i].IsLink() && 0 < fuel && LinkStep(ms, i).Some? && ms[LinkStep(ms, i).value].File? ==>
      r == Ok(Data(ms[LinkStep(ms, i).value].data))
    ensures ms[i].IsLink() && 0 < fuel && LinkStep(ms, i).Some? && ms[LinkStep(ms, i).value].Dir? ==>
      r == Ok(NoFileObject)
    ensures r.Err? ==> r.error.KeyError? || r.error == RecursionError
    decreases fuel
  {
    match ms[i]
    case File(_, data) => Ok(Data(data))
    case Dir(_) => Ok(NoFileObject)
    case _ =>
      if fuel == 0 then Err(RecursionError)
      else
        match LinkStep(ms, i) {
          case None => Err(KeyError(ms[i].target))
          case Some(j) => ExtractFile(ms, j, fuel - 1)
        }
  }
}
