/**
  The part of GitHub that `agents/patch_workflow.py` works on, seen through
  `agents/github_client.py`: branches, files and pull requests, and requests that may fail before or
  after they have taken effect.
 */
module GitHubRepository {
  import opened Basics

  type Tree = map<string, string>

  /** Git names a blob by a hash of its content; the model takes the hash to be free of collisions. */
  datatype BlobSha = BlobSha(content: string)

  datatype PullRequest = PullRequest(title: string, head: string, base: string)

  datatype ApiError = NotFound | AlreadyExists | Conflict | ReferenceUpdateFailed | ServerError

  datatype Response<+T> = Success(value: T) | ApiFailure(error: ApiError) | TransportFailure

  /** What a failing request claims; that something is missing is only said when it is. */
  type FaultError = e: ApiError | e != NotFound witness ServerError

  /** What goes wrong with one request beyond what the repository itself refuses.  `applied` tells
      whether the repository carried the request out although the client sees a failure. */
  datatype Fault =
    | NoFault
    | ApiFault(error: FaultError, applied: bool)
    | TransportFault(applied: bool)

  predicate Faultless(faults: seq<Fault>) {
    forall k :: 0 <= k < |faults| ==> faults[k].NoFault?
  }

  /** At most the first of the requests to come goes wrong. */
  predicate FirstFaultOnly(faults: seq<Fault>) {
    faults == [] || Faultless(faults[1..])
  }

  function Lookup(t: Tree, path: string): Option<string> {
    if path in t then Some(t[path]) else None
  }

  /** Writing a file: the repository insists on the current sha, or on none for a new file. */
  function Written(t: Tree, path: string, content: string, sha: Option<BlobSha>): Option<Tree> {
    var current := if path in t then Some(BlobSha(t[path])) else None;
    if sha == current then Some(t[path := content]) else None
  }

  function Removed(t: Tree, path: string, sha: Option<BlobSha>): Option<Tree> {
    if path in t && sha == Some(BlobSha(t[path])) then Some(t - {path}) else None
  }

  class Repository {
    const defaultBranch: string
    var branches: map<string, Tree>
    var pulls: seq<PullRequest>
    var faults: seq<Fault>      // what will go wrong, one entry for each request

    constructor (defaultBranch: string, branches: map<string, Tree>, faults: seq<Fault>)
      ensures this.defaultBranch == defaultBranch && this.branches == branches && this.faults == faults && pulls == []
    {
      this.defaultBranch, this.branches, this.faults, pulls := defaultBranch, branches, faults, [];
    }

    function DefaultTree(): Tree
      reads this
    {
      if defaultBranch in branches then branches[defaultBranch] else map[]
    }

    method TakeFault() returns (f: Fault)
      modifies `faults
      ensures f == if old(faults) == [] then NoFault else old(faults[0])
      ensures faults == if old(faults) == [] then [] else old(faults[1..])
      ensures old(Faultless(faults)) ==> f.NoFault? && Faultless(faults)
    {
      f := NoFault;
      if faults != [] {
        f, faults := faults[0], faults[1..];
      }
    }

    /** Answers a request that would change the branches to `after` (or is refused with `refusal`). */
    method Answer(after: Option<map<string, Tree>>, refusal: ApiError) returns (r: Response<()>)
      modifies `branches, `faults
      ensures
        var fault := if old(faults) == [] then NoFault else old(faults[0]);
        && branches == (if after.Some? && (fault.NoFault? || fault.applied) then after.value else old(branches))
        && faults == (if old(faults) == [] then [] else old(faults[1..]))
        && (r.TransportFailure? <==> fault.TransportFault?)
        && (r.Success? <==> fault.NoFault? && after.Some?)
        && (r.ApiFailure? ==> r.error == if fault.ApiFault? then fault.error else refusal)
      ensures r.ApiFailure? && r.error == NotFound ==> after.None?
      ensures old(Faultless(faults)) ==> Faultless(faults) && !r.TransportFailure?
      ensures old(Faultless(faults)) ==> (r.Success? <==> after.Some?)
      ensures old(Faultless(faults)) && r.ApiFailure? ==> r.error == refusal && branches == old(branches)
    {
      var fault := TakeFault();
      if after.Some? && (fault.NoFault? || fault.applied) {
        branches := after.value;
      }
      r := match fault
        case NoFault => if after.Some? then Success(()) else ApiFailure(refusal)
        case ApiFault(error, _) => ApiFailure(error)
        case TransportFault(_) => TransportFailure;
    }

    /** `get_file_content` without a ref reads the default branch. */
    method GetFileSha(path: string) returns (r: Response<BlobSha>)
      modifies `branches, `faults
      ensures branches == old(branches)
      ensures r.Success? ==>
                && defaultBranch in branches && path in branches[defaultBranch]
                && r.value == BlobSha(branches[defaultBranch][path])
      ensures r.ApiFailure? && r.error == NotFound ==>
                defaultBranch !in branches || path !in branches[defaultBranch]
      ensures old(Faultless(faults)) ==>
                Faultless(faults) && (r.Success? || (r.ApiFailure? && r.error == NotFound))
      ensures old(FirstFaultOnly(faults)) ==> Faultless(faults)
    {
      var found := path in DefaultTree();
      var answer := Answer(if found then Some(branches) else None, NotFound);
      r := match answer
        case Success(_) => Success(BlobSha(DefaultTree()[path]))
        case ApiFailure(e) => ApiFailure(e)
        case TransportFailure => TransportFailure;
    }

    /** Reads the head of the base branch and creates a ref on it. */
    method CreateBranch(name: string, base: string) returns (r: Response<()>)
      modifies `branches, `faults
      ensures branches == old(branches)
           || (name !in old(branches) && base in old(branches)
                 && branches == old(branches)[name := old(branches)[base]])
      ensures r.Success? ==> name !in old(branches) && base in old(branches) && name in branches
      ensures old(FirstFaultOnly(faults)) ==> Faultless(faults)
      ensures old(Faultless(faults)) ==> Faultless(faults) && !r.TransportFailure?
      ensures old(Faultless(faults)) ==> (r.Success? <==> base in old(branches) && name !in old(branches))
      ensures old(Faultless(faults)) && r.ApiFailure? ==> branches == old(branches)
      ensures old(Faultless(faults)) && r.ApiFailure? ==>
                && r.error != ReferenceUpdateFailed
                && (r.error == AlreadyExists <==> base in branches && name in branches)
    {
      r := Answer(if base in branches then Some(branches) else None, NotFound);
      if r.Success? {
        r := Answer(if name in branches then None else Some(branches[name := branches[base]]), AlreadyExists);
      }
    }

    method PutFile(path: string, content: string, branch: string, sha: Option<BlobSha>) returns (r: Response<()>)
      modifies `branches, `faults
      ensures
        var written := if branch in old(branches) then Written(old(branches[branch]), path, content, sha) else None;
        && (branches == old(branches) || (written.Some? && branches == old(branches)[branch := written.value]))
        && (r.Success? ==> written.Some? && branches == old(branches)[branch := written.value])
        && (old(Faultless(faults)) ==> Faultless(faults) && !r.TransportFailure? && (r.Success? <==> written.Some?))
        && (old(Faultless(faults)) && r.ApiFailure? ==> r.error == Conflict)
    {
      var written := if branch in branches then Written(branches[branch], path, content, sha) else None;
      r := Answer(if written.Some? then Some(branches[branch := written.value]) else None, Conflict);
    }

    method DeleteFile(path: string, branch: string, sha: Option<BlobSha>) returns (r: Response<()>)
      modifies `branches, `faults
      ensures
        var removed := if branch in old(branches) then Removed(old(branches[branch]), path, sha) else None;
        && (branches == old(branches) || (removed.Some? && branches == old(branches)[branch := removed.value]))
        && (r.Success? ==> removed.Some? && branches == old(branches)[branch := removed.value])
        && (old(Faultless(faults)) ==> Faultless(faults) && !r.TransportFailure? && (r.Success? <==> removed.Some?))
        && (old(Faultless(faults)) && r.ApiFailure? ==> r.error == Conflict)
    {
      var removed := if branch in branches then Removed(branches[branch], path, sha) else None;
      r := Answer(if removed.Some? then Some(branches[branch := removed.value]) else None, Conflict);
    }

    method CreatePullRequest(title: string, head: string, base: string) returns (r: Response<nat>)
      modifies `branches, `pulls, `faults
      ensures branches == old(branches)
      ensures pulls == old(pulls) || pulls == old(pulls) + [PullRequest(title, head, base)]
      ensures r.Success? ==> pulls == old(pulls) + [PullRequest(title, head, base)] && r.value == |pulls|
      ensures old(Faultless(faults)) ==> Faultless(faults) && !r.TransportFailure?
      ensures old(Faultless(faults)) ==> (r.Success? <==> head in branches && base in branches)
      ensures old(Faultless(faults)) && r.ApiFailure? ==> r.error == NotFound
    {
      var fault := TakeFault();
      var possible := head in branches && base in branches;
      if possible && (fault.NoFault? || fault.applied) {
        pulls := pulls + [PullRequest(title, head, base)];
      }
      r := match fault
        case NoFault => if possible then Success(|pulls|) else ApiFailure(NotFound)
        case ApiFault(error, _) => ApiFailure(error)
        case TransportFault(_) => TransportFailure;
    }

    /** Looks the ref up and deletes it. */
    method DeleteBranch(name: string) returns (r: Response<()>)
      modifies `branches, `faults
      ensures branches == old(branches) || branches == old(branches) - {name}
      ensures r.Success? ==> branches == old(branches) - {name}
      ensures old(Faultless(faults)) ==> Faultless(faults) && branches == old(branches) - {name}
      ensures old(Faultless(faults)) ==> (r.Success? <==> name in old(branches))
    {
      r := Answer(if name in branches then Some(branches) else None, NotFound);
      if r.Success? {
        r := Answer(Some(branches - {name}), NotFound);
      }
    }
  }
}
