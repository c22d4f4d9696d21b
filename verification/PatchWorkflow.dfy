/**
  `PatchWorkflowOrchestrator` of `agents/patch_workflow.py`: validate a patch, create a branch, commit
  every file to it, open a pull request, and delete the branch again on failure.
 */
module PatchWorkflow {
  import opened Basics
  import opened GitHubRepository

  // ----- Patches as values

  datatype Kind = Create | Modify | Delete

  datatype Change = Change(path: string, content: string, kind: Kind, sha: Option<BlobSha>)

  /** A change after validation against the tree t. */
  function Validated(c: Change, t: Tree): Change {
    match c.kind
    case Delete => c
    case Modify =>
      if c.sha.Some? then c
      else if c.path in t then c.(sha := Some(BlobSha(t[c.path])))
      else c.(kind := Create)
    case Create =>
      if c.path in t then c.(kind := Modify, sha := Some(BlobSha(t[c.path]))) else c
  }

  function ValidatedAll(cs: seq<Change>, t: Tree): (r: seq<Change>)
    ensures |r| == |cs|
  {
    seq(|cs|, i requires 0 <= i < |cs| => Validated(cs[i], t))
  }

  function Applied(c: Change, t: Tree): Option<Tree> {
    if c.kind.Delete? then Removed(t, c.path, c.sha) else Written(t, c.path, c.content, c.sha)
  }

  /** The tree after committing the changes one by one; None when the repository refuses one. */
  function AppliedAll(cs: seq<Change>, t: Tree): Option<Tree> {
    if cs == [] then Some(t) else
      var before := AppliedAll(cs[..|cs| - 1], t);
      if before.None? then None else Applied(cs[|cs| - 1], before.value)
  }

  // ----- Patches as objects

  class FileChange {
    const path: string
    const content: string
    var kind: Kind
    var sha: Option<BlobSha>

    constructor (c: Change)
      ensures View() == c
    {
      path, content, kind, sha := c.path, c.content, c.kind, c.sha;
    }

    function View(): Change
      reads this
    {
      Change(path, content, kind, sha)
    }
  }

  ghost function Views(files: seq<FileChange>): (r: seq<Change>)
    reads files
    ensures |r| == |files|
  {
    seq(|files|, i requires 0 <= i < |files| reads files => files[i].View())
  }

  predicate Distinct(files: seq<FileChange>) {
    forall i, j :: 0 <= i < j < |files| ==> files[i] != files[j]
  }

  datatype PatchWorkflowResult = PatchWorkflowResult(
    success: bool,
    branchName: string,
    prNumber: Option<nat>,
    filesChanged: seq<string>,
    error: Option<ApiError>,
    rollbackPerformed: bool)

  /** How a call ends: with a result, or with an exception that the handler does not catch. */
  datatype Outcome = Returned(result: PatchWorkflowResult) | RaisedValueError | RaisedTransportError

  datatype Validation = Accepted | Rejected | ValidationFailed(error: ApiError) | ValidationLost

  // ----- The orchestrator

  class PatchWorkflowOrchestrator {
    const client: Repository
    const baseBranch: string

    constructor (client: Repository, baseBranch: string)
      ensures this.client == client && this.baseBranch == baseBranch
    {
      this.client, this.baseBranch := client, baseBranch;
    }

    /** The body of the loop over the files. */
    method ValidateFile(fc: FileChange) returns (v: Validation)
      modifies fc, client`branches, client`faults
      ensures client.branches == old(client.branches)
      ensures if v.Accepted? then fc.View() == Validated(old(fc.View()), client.DefaultTree())
              else fc.View() == old(fc.View())
      ensures v.Accepted? && old(fc.kind) == Delete ==> old(fc.sha.Some?)
      ensures v.Rejected? ==> old(fc.kind) == Delete && old(fc.sha.None?)
      ensures old(Faultless(client.faults)) ==> Faultless(client.faults) && (v.Accepted? || v.Rejected?)
      ensures old(FirstFaultOnly(client.faults)) ==> client.faults == old(client.faults) || Faultless(client.faults)
      ensures old(FirstFaultOnly(client.faults)) && v.ValidationFailed? ==> Faultless(client.faults)
    {
      if fc.kind == Delete {
        if fc.sha.None? {
          return Rejected;
        }
      } else if fc.kind == Create || fc.sha.None? {
        var found := client.GetFileSha(fc.path);
        match found {
          case Success(sha) =>
            fc.sha := Some(sha);
            fc.kind := Modify;
          case ApiFailure(error) =>
            if error != NotFound {
              return ValidationFailed(error);
            }
            fc.kind := Create;
          case TransportFailure =>
            return ValidationLost;
        }
      }
      return Accepted;
    }

    method ValidatePatch(files: seq<FileChange>) returns (v: Validation)
      requires Distinct(files)
      modifies files, client`branches, client`faults
      ensures client.branches == old(client.branches)
      ensures v.Accepted? ==> Views(files) == ValidatedAll(old(Views(files)), client.DefaultTree())
      ensures forall i :: 0 <= i < |files| ==>
                (files[i].View() == old(files[i].View())
                 || files[i].View() == Validated(old(files[i].View()), client.DefaultTree()))
      ensures v.Accepted? ==> forall i :: 0 <= i < |files| && old(files[i].kind) == Delete ==> old(files[i].sha.Some?)
      ensures v.Rejected? ==> exists i :: 0 <= i < |files| && old(files[i].kind) == Delete && old(files[i].sha.None?)
      ensures old(Faultless(client.faults)) ==> Faultless(client.faults) && (v.Accepted? || v.Rejected?)
      ensures old(FirstFaultOnly(client.faults)) ==> client.faults == old(client.faults) || Faultless(client.faults)
      ensures old(FirstFaultOnly(client.faults)) && v.ValidationFailed? ==> Faultless(client.faults)
    {
      hide Faultless, FirstFaultOnly, Validated;
      for i := 0 to |files|
        invariant client.branches == old(client.branches)
        invariant forall k :: 0 <= k < i ==>
                    files[k].View() == Validated(old(files[k].View()), client.DefaultTree())
        invariant forall k :: 0 <= k < i && old(files[k].kind) == Delete ==> old(files[k].sha.Some?)
        invariant forall k :: i <= k < |files| ==> files[k].View() == old(files[k].View())
        invariant old(Faultless(client.faults)) ==> Faultless(client.faults)
        invariant old(FirstFaultOnly(client.faults)) ==> client.faults == old(client.faults) || Faultless(client.faults)
      {
        assert files[i].View() == old(files[i].View());
        v := ValidateFile(files[i]);
        if !v.Accepted? {
          return;
        }
      }
      return Accepted;
    }

    method ApplyFileChange(fc: FileChange, branch: string) returns (r: Response<()>)
      modifies client`branches, client`faults
      ensures
        var applied := if branch in old(client.branches)
                  then Applied(fc.View(), old(client.branches[branch])) else None;
        && (client.branches == old(client.branches)
            || (applied.Some? && client.branches == old(client.branches)[branch := applied.value]))
        && (r.Success? ==> applied.Some? && client.branches == old(client.branches)[branch := applied.value])
        && (old(Faultless(client.faults)) ==> Faultless(client.faults) && !r.TransportFailure?)
        && (old(Faultless(client.faults)) ==> (r.Success? <==> applied.Some?))
        && (old(Faultless(client.faults)) && r.ApiFailure? ==> r.error == Conflict)
    {
      if fc.kind == Delete {
        r := client.DeleteFile(fc.path, branch, fc.sha);
      } else {
        r := client.PutFile(fc.path, fc.content, branch, fc.sha);
      }
    }

    /** Commits every change to the new branch, in order. */
    method CommitAll(files: seq<FileChange>, branch: string) returns (r: Response<()>, changed: seq<string>)
      requires branch in client.branches
      modifies client`branches, client`faults
      ensures branch in client.branches && client.branches - {branch} == old(client.branches) - {branch}
      ensures
        var tree := AppliedAll(Views(files), old(client.branches[branch]));
        && (r.Success? ==> tree.Some? && client.branches == old(client.branches)[branch := tree.value])
        && (r.Success? ==> changed == seq(|files|, i requires 0 <= i < |files| => files[i].path))
        && (old(Faultless(client.faults)) ==>
              && Faultless(client.faults) && !r.TransportFailure? && (r.Success? <==> tree.Some?)
              && (r.ApiFailure? ==> r.error == Conflict))
    {
      hide Applied, Faultless;
      changed := [];
      ghost var base := client.branches[branch];
      ghost var cs := Views(files);
      assert cs[..0] == [];
      for i := 0 to |files|
        invariant branch in client.branches
        invariant client.branches - {branch} == old(client.branches) - {branch}
        invariant AppliedAll(cs[..i], base) == Some(client.branches[branch])
        invariant changed == seq(i, k requires 0 <= k < i => files[k].path)
        invariant old(Faultless(client.faults)) ==> Faultless(client.faults)
      {
        OneMoreApplied(cs, i, base);
        var applied := ApplyFileChange(files[i], branch);
        if !applied.Success? {
          if AppliedAll(cs, base).Some? {
            PrefixesApply(cs, i + 1, base);
          }
          return applied, [];
        }
        changed := changed + [files[i].path];
      }
      assert cs[..|files|] == cs;
      OnlyDiffersAt(client.branches, old(client.branches), branch);
      r := Success(());
    }

    /** The body of the `try` block, from creating the branch to opening the pull request. */
    method Publish(files: seq<FileChange>, title: string, branch: string)
      returns (r: Response<nat>, changed: seq<string>)
      modifies client`branches, client`pulls, client`faults
      ensures client.branches - {branch} == old(client.branches) - {branch}
      ensures r.Success? ==>
        && branch !in old(client.branches) && baseBranch in old(client.branches)
        && var tree := AppliedAll(Views(files), old(client.branches)[baseBranch]);
        && tree.Some? && client.branches == old(client.branches)[branch := tree.value]
        && client.pulls == old(client.pulls) + [PullRequest(title, branch, baseBranch)] && r.value == |client.pulls|
        && changed == seq(|files|, i requires 0 <= i < |files| => files[i].path)
      ensures client.pulls == old(client.pulls)
              || client.pulls == old(client.pulls) + [PullRequest(title, branch, baseBranch)]
      ensures changed == [] || changed == seq(|files|, i requires 0 <= i < |files| => files[i].path)
      ensures old(FirstFaultOnly(client.faults)) ==> Faultless(client.faults)
      ensures old(Faultless(client.faults)) ==>
        && Faultless(client.faults) && !r.TransportFailure? && (r.ApiFailure? ==> changed == [])
        && (r.Success? <==>
              && branch !in old(client.branches) && baseBranch in old(client.branches)
              && AppliedAll(Views(files), old(client.branches)[baseBranch]).Some?)
        && (r.ApiFailure? ==>
              && (branch in client.branches <==> branch in old(client.branches) || baseBranch in old(client.branches))
              && r.error != ReferenceUpdateFailed
              && (r.error == AlreadyExists <==> branch in old(client.branches) && baseBranch in old(client.branches)))
    {
      changed := [];
      var created := client.CreateBranch(branch, baseBranch);
      if !created.Success? {
        return if created.ApiFailure? then ApiFailure(created.error) else TransportFailure, [];
      }
      var committed;
      committed, changed := CommitAll(files, branch);
      if !committed.Success? {
        return if committed.ApiFailure? then ApiFailure(committed.error) else TransportFailure, [];
      }
      r := client.CreatePullRequest(title, branch, baseBranch);
    }

    /** Any end of a call leaves every other branch alone.  A successful call has added one branch,
        holding the base branch with the validated changes committed on top, and one pull request.
        After a rollback the branch does not exist, so the branches are the initial ones exactly when
        it did not exist before.  A patch is refused, with nothing sent to the branches, exactly when it has
        a deletion without a sha; every other failure rolls back, even one of the validation, when the call
        itself has created nothing yet. */
    method ApplyPatch(files: seq<FileChange>, title: string, branch: string) returns (o: Outcome)
      requires Distinct(files)
      modifies files, client`branches, client`pulls, client`faults
      ensures client.branches - {branch} == old(client.branches) - {branch}
      ensures o.Returned? && o.result.success ==>
        && branch !in old(client.branches) && baseBranch in old(client.branches)
        && Views(files) == ValidatedAll(old(Views(files)), old(client.DefaultTree()))
        && var tree := AppliedAll(Views(files), old(client.branches)[baseBranch]);
        && tree.Some? && client.branches == old(client.branches)[branch := tree.value]
        && client.pulls == old(client.pulls) + [PullRequest(title, branch, baseBranch)]
        && o.result.prNumber == Some(|client.pulls|)
        && o.result.filesChanged == seq(|files|, i requires 0 <= i < |files| => files[i].path)
      ensures o.Returned? && o.result.rollbackPerformed ==>
        && !o.result.success && branch !in client.branches
        && (client.branches == old(client.branches) <==> branch !in old(client.branches))
      ensures o.RaisedValueError? ==>
        && client.branches == old(client.branches) && client.pulls == old(client.pulls)
        && exists i :: 0 <= i < |files| && old(files[i].kind) == Delete && old(files[i].sha.None?)
      ensures o.Returned? ==> (o.result.success <==> o.result.error.None?) && o.result.branchName == branch
      ensures o.Returned? && !o.result.success ==>
        && o.result.prNumber.None?
        && (o.result.filesChanged == []
            || o.result.filesChanged == seq(|files|, i requires 0 <= i < |files| => files[i].path))
        && (old(FirstFaultOnly(client.faults)) ==> branch !in client.branches)
      ensures forall i :: 0 <= i < |files| ==>
                (files[i].View() == old(files[i].View())
                 || files[i].View() == Validated(old(files[i].View()), old(client.DefaultTree())))
      ensures old(Faultless(client.faults)) ==>
        && Faultless(client.faults)
        && !o.RaisedTransportError?
        && (o.RaisedValueError? <==>
              exists i :: 0 <= i < |files| && old(files[i].kind) == Delete && old(files[i].sha.None?))
        && (o.Returned? ==>
              && Views(files) == ValidatedAll(old(Views(files)), old(client.DefaultTree()))
              && (o.result.success <==>
                    && branch !in old(client.branches) && baseBranch in old(client.branches)
                    && AppliedAll(ValidatedAll(old(Views(files)), old(client.DefaultTree())),
                                  old(client.branches)[baseBranch]).Some?)
              && (!o.result.success ==>
                    client.branches == old(client.branches) - {branch} && o.result.filesChanged == [])
              && (!o.result.success ==>
                    && (o.result.rollbackPerformed <==>
                          branch in old(client.branches) || baseBranch in old(client.branches))
                    && o.result.error != Some(ReferenceUpdateFailed)
                    && (o.result.error == Some(AlreadyExists) <==>
                          branch in old(client.branches) && baseBranch in old(client.branches))))
    {
      hide AppliedAll, Applied, Validated, ValidatedAll, Faultless, FirstFaultOnly;
      var result := PatchWorkflowResult(false, branch, None, [], None, false);
      var v := ValidatePatch(files);
      match v {
        case Rejected => return RaisedValueError;
        case ValidationLost => return RaisedTransportError;
        case ValidationFailed(error) =>
          result := result.(error := Some(error));
        case Accepted =>
          var r, changed := Publish(files, title, branch);
          match r {
            case Success(number) =>
              return Returned(result.(success := true, prNumber := Some(number), filesChanged := changed));
            case TransportFailure => return RaisedTransportError;
            case ApiFailure(error) =>
              result := result.(error := Some(error), filesChanged := changed);
          }
      }
      ghost var before := client.branches;
      var deleted := client.DeleteBranch(branch);
      assert client.branches == before || client.branches == before - {branch};
      if deleted.Success? {
        result := result.(rollbackPerformed := true);
        assert client.branches == before - {branch};
        assert client.branches == old(client.branches) - {branch};
      }
      return Returned(result);
    }
  }

  lemma OnlyDiffersAt<K, V>(m: map<K, V>, before: map<K, V>, k: K)
    requires k in m && m - {k} == before - {k}
    ensures m == before[k := m[k]]
  {
    assert (m - {k}).Keys == m.Keys - {k} && (before - {k}).Keys == before.Keys - {k};
    forall x | x in m && x != k ensures x in before && m[x] == before[x] {
      assert x in (m - {k}).Keys && (m - {k})[x] == (before - {k})[x];
    }
    forall x | x in before && x != k ensures x in m {
      assert x in (before - {k}).Keys;
    }
  }

  lemma OneMoreApplied(cs: seq<Change>, n: nat, t: Tree)
    requires n < |cs|
    ensures AppliedAll(cs[..n + 1], t) ==
            var before := AppliedAll(cs[..n], t);
            if before.None? then None else Applied(cs[n], before.value)
  {
    assert cs[..n + 1][..n] == cs[..n];
  }

  /** Every prefix of changes that apply applies. */
  lemma {:induction false} PrefixesApply(cs: seq<Change>, n: nat, t: Tree)
    requires n <= |cs| && AppliedAll(cs, t).Some?
    ensures AppliedAll(cs[..n], t).Some?
  {
    if n < |cs| {
      var shorter := cs[..|cs| - 1];
      PrefixesApply(shorter, n, t);
      assert shorter[..n] == cs[..n];
    } else {
      assert cs[..n] == cs;
    }
  }
}
