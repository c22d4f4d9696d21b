/** What the commits of a patch amount to, and what a second attempt does. */
module PatchLaws {
  import opened Basics
  import opened GitHubRepository
  import opened PatchWorkflow

  // ----- The branch is the base overlaid with the changes

  /** The content that the last change to a path leaves there. */
  function Overlaid(cs: seq<Change>, t: Tree, path: string): Option<string> {
    if cs == [] then Lookup(t, path)
    else
      var last := cs[|cs| - 1];
      if last.path != path then Overlaid(cs[..|cs| - 1], t, path)
      else if last.kind.Delete? then None
      else Some(last.content)
  }

  lemma {:induction false} CommitsOverlay(cs: seq<Change>, t: Tree, path: string)
    requires AppliedAll(cs, t).Some?
    ensures Lookup(AppliedAll(cs, t).value, path) == Overlaid(cs, t, path)
  {
    if cs != [] {
      CommitsOverlay(cs[..|cs| - 1], t, path);
    }
  }

  lemma {:induction false} ValidationKeepsOverlay(cs: seq<Change>, d: Tree, t: Tree, path: string)
    ensures Overlaid(ValidatedAll(cs, d), t, path) == Overlaid(cs, t, path)
  {
    if cs != [] {
      ValidationKeepsOverlay(cs[..|cs| - 1], d, t, path);
      assert ValidatedAll(cs, d)[..|cs| - 1] == ValidatedAll(cs[..|cs| - 1], d);
    }
  }

  // ----- When the commits go through

  /** The content that the repository is told the change replaces, by its sha; None without a sha.  A sha that
      came with a change to modify or delete is kept; otherwise the default branch d is asked. */
  function Claimed(c: Change, d: Tree): Option<string> {
    if (c.kind.Create? || (c.kind.Modify? && c.sha.None?)) && c.path in d then Some(d[c.path])
    else if c.sha.Some? then Some(c.sha.value.content)
    else None
  }

  /** The repository takes the change when what is there is what it is told, and there is something to delete. */
  predicate Fits(c: Change, d: Tree, current: Option<string>) {
    Claimed(c, d) == current && (c.kind.Delete? ==> current.Some?)
  }

  lemma ValidatedFitsExactly(c: Change, d: Tree, t: Tree)
    ensures Applied(Validated(c, d), t).Some? <==> Fits(c, d, Lookup(t, c.path))
  {
  }

  lemma OneMoreCommit(init: seq<Change>, last: Change, d: Tree, b: Tree)
    ensures AppliedAll(ValidatedAll(init, d), b).None? ==> AppliedAll(ValidatedAll(init + [last], d), b).None?
    ensures AppliedAll(ValidatedAll(init, d), b).Some? ==>
              (AppliedAll(ValidatedAll(init + [last], d), b).Some? <==> Fits(last, d, Overlaid(init, b, last.path)))
  {
    var cs, vs := init + [last], ValidatedAll(init + [last], d);
    assert vs[..|cs| - 1] == ValidatedAll(init, d) && vs[|cs| - 1] == Validated(last, d);
    if AppliedAll(ValidatedAll(init, d), b).Some? {
      CommitsOverlay(ValidatedAll(init, d), b, last.path);
      ValidationKeepsOverlay(init, d, b, last.path);
      ValidatedFitsExactly(last, d, AppliedAll(ValidatedAll(init, d), b).value);
    }
  }

  /** Each change fits what the changes before it have left on the branch. */
  predicate GoesThrough(cs: seq<Change>, d: Tree, b: Tree) {
    forall i :: 0 <= i < |cs| ==> Fits(cs[i], d, Overlaid(cs[..i], b, cs[i].path))
  }

  lemma OneMoreFits(init: seq<Change>, last: Change, d: Tree, b: Tree)
    ensures GoesThrough(init + [last], d, b) <==> GoesThrough(init, d, b) && Fits(last, d, Overlaid(init, b, last.path))
  {
    hide Fits, Overlaid;
    var cs := init + [last];
    assert cs[|init|] == last && cs[..|init|] == init;
    forall i | 0 <= i < |init| ensures init[i] == cs[i] && init[..i] == cs[..i] {
    }
  }

  /** Any patch, with deletions and with shas of the caller's own, goes through exactly when that is so. */
  lemma {:induction false} GoesThroughExactly(cs: seq<Change>, d: Tree, b: Tree)
    ensures AppliedAll(ValidatedAll(cs, d), b).Some? <==> GoesThrough(cs, d, b)
  {
    if cs != [] {
      hide GoesThrough, AppliedAll, Fits, Overlaid;
      var n := |cs| - 1;
      GoesThroughExactly(cs[..n], d, b);
      OneMoreCommit(cs[..n], cs[n], d, b);
      OneMoreFits(cs[..n], cs[n], d, b);
      assert cs == cs[..n] + [cs[n]];
    }
  }

  /** A deletion with the sha of the file as it is on the branch removes that file and nothing else. */
  lemma DeletionDeletes(path: string, d: Tree, b: Tree)
    requires path in b
    ensures
      var deletion := Change(path, "", Delete, Some(BlobSha(b[path])));
      AppliedAll(ValidatedAll([deletion], d), b) == Some(b - {path})
  {
    var vs := ValidatedAll([Change(path, "", Delete, Some(BlobSha(b[path])))], d);
    assert vs[..0] == [];
    assert AppliedAll(vs[..0], b) == Some(b);
  }

  /** Changes as code generation makes them: files to write, with no sha yet. */
  predicate Generated(cs: seq<Change>) {
    forall i :: 0 <= i < |cs| ==> !cs[i].kind.Delete? && cs[i].sha.None?
  }

  /** The default branch, which validation reads, and the base branch, which is committed to, hold the
      same content for every path of the patch. */
  predicate Agree(cs: seq<Change>, d: Tree, b: Tree) {
    forall i :: 0 <= i < |cs| ==> Lookup(d, cs[i].path) == Lookup(b, cs[i].path)
  }

  /** A path occurs again only after changes that left its content as it was. */
  predicate NoClash(cs: seq<Change>, b: Tree) {
    forall i, j :: 0 <= i < j < |cs| && cs[i].path == cs[j].path ==> Lookup(b, cs[j].path) == Some(cs[i].content)
  }

  lemma LastWrite(cs: seq<Change>, t: Tree, path: string) returns (i: int)
    requires Generated(cs)
    ensures -1 <= i < |cs|
    ensures forall k :: i < k < |cs| ==> cs[k].path != path
    ensures i == -1 ==> Overlaid(cs, t, path) == Lookup(t, path)
    ensures i >= 0 ==> cs[i].path == path && Overlaid(cs, t, path) == Some(cs[i].content)
  {
    if cs == [] {
      i := -1;
    } else if cs[|cs| - 1].path == path {
      i := |cs| - 1;
    } else {
      i := LastWrite(cs[..|cs| - 1], t, path);
    }
  }

  /** Every sha fixed by validation is current when its change is committed exactly when the two
      branches agree on the patch and no path is written twice with an effect in between. */
  lemma {:induction false} CommitsGoThroughExactly(cs: seq<Change>, d: Tree, b: Tree)
    requires Generated(cs)
    ensures AppliedAll(ValidatedAll(cs, d), b).Some? <==> Agree(cs, d, b) && NoClash(cs, b)
  {
    if cs != [] {
      var init, last := cs[..|cs| - 1], cs[|cs| - 1];
      CommitsGoThroughExactly(init, d, b);
      CommitLast(init, last, d, b);
      assert cs == init + [last];
      if AppliedAll(ValidatedAll(init, d), b).Some? {
        LastChangeFitsExactly(init, last, d, b);
      } else if Agree(cs, d, b) && NoClash(cs, b) {
        PrefixConditions(init, last, d, b);
      }
    }
  }

  lemma CommitLast(init: seq<Change>, last: Change, d: Tree, b: Tree)
    requires Generated(init + [last])
    ensures Generated(init)
    ensures AppliedAll(ValidatedAll(init, d), b).None? ==> AppliedAll(ValidatedAll(init + [last], d), b).None?
    ensures AppliedAll(ValidatedAll(init, d), b).Some? ==>
              (AppliedAll(ValidatedAll(init + [last], d), b).Some? <==>
                 Lookup(d, last.path) == Overlaid(init, b, last.path))
  {
    var cs := init + [last];
    assert forall i :: 0 <= i < |init| ==> init[i] == cs[i];
    assert last == cs[|init|];
    OneMoreCommit(init, last, d, b);
  }

  lemma PrefixConditions(init: seq<Change>, last: Change, d: Tree, b: Tree)
    requires Agree(init + [last], d, b) && NoClash(init + [last], b)
    ensures Agree(init, d, b) && NoClash(init, b)
  {
    assert forall i :: 0 <= i < |init| ==> init[i] == (init + [last])[i];
  }

  /** One more change keeps both conditions exactly when validation saw what the branch now holds. */
  lemma LastChangeFitsExactly(init: seq<Change>, last: Change, d: Tree, b: Tree)
    requires Generated(init) && Agree(init, d, b) && NoClash(init, b)
    ensures Lookup(d, last.path) == Overlaid(init, b, last.path)
            <==> Agree(init + [last], d, b) && NoClash(init + [last], b)
  {
    var cs := init + [last];
    var n := |init|;
    assert cs[n] == last && forall i :: 0 <= i < n ==> cs[i] == init[i];
    var i := LastWrite(init, b, last.path);
    if Lookup(d, last.path) == Overlaid(init, b, last.path) {
      if i >= 0 {
        assert Lookup(d, init[i].path) == Lookup(b, init[i].path);
      }
      forall j, k | 0 <= j < k < |cs| && cs[j].path == cs[k].path
        ensures Lookup(b, cs[k].path) == Some(cs[j].content)
      {
        if k == n && j < i {
          assert init[j].path == init[i].path;
        }
      }
    } else if Agree(cs, d, b) && NoClash(cs, b) {
      assert Lookup(d, cs[n].path) == Lookup(b, cs[n].path);
      assert i >= 0 && cs[i].path == cs[n].path;
    }
  }

  /** A patch with distinct paths, based on the default branch, always goes through. */
  lemma DistinctPathsGoThrough(cs: seq<Change>, b: Tree, path: string)
    requires Generated(cs)
    requires forall i, j :: 0 <= i < j < |cs| ==> cs[i].path != cs[j].path
    ensures AppliedAll(ValidatedAll(cs, b), b).Some?
    ensures Lookup(AppliedAll(ValidatedAll(cs, b), b).value, path) == Overlaid(cs, b, path)
  {
    CommitsGoThroughExactly(cs, b, b);
    CommitsOverlay(ValidatedAll(cs, b), b, path);
    ValidationKeepsOverlay(cs, b, b, path);
  }

  // ----- What a rollback can cost

  /** A patch for a branch name that is taken fails, and the draft that was on the branch is gone. */
  method OlderBranchIsLost() returns (before: map<string, Tree>, o: Outcome, after: map<string, Tree>)
    ensures before == map["main" := map[], "work" := map["notes.md" := "draft"]]
    ensures o.Returned? && o.result.error == Some(AlreadyExists)
    ensures after == map["main" := map[]]
  {
    var client := new Repository("main", map["main" := map[], "work" := map["notes.md" := "draft"]], []);
    var orchestrator := new PatchWorkflowOrchestrator(client, "main");
    var change := new FileChange(Change("app.py", "pass", Create, None));
    before := client.branches;
    o := orchestrator.ApplyPatch([change], "Add the application", "work");
    after := client.branches;
  }

  // ----- A second attempt

  /** Validating a list again, even one that was only validated in part, gives what validating the
      original list gives. */
  lemma ValidationIsIdempotent(cs: seq<Change>, mixed: seq<Change>, t: Tree)
    requires |mixed| == |cs|
    requires forall i :: 0 <= i < |cs| ==> mixed[i] == cs[i] || mixed[i] == Validated(cs[i], t)
    ensures ValidatedAll(mixed, t) == ValidatedAll(cs, t)
    ensures forall i :: 0 <= i < |cs| ==> Validated(mixed[i], t) == Validated(cs[i], t)
  {
    forall i | 0 <= i < |cs| ensures Validated(mixed[i], t) == Validated(cs[i], t) {
    }
  }

  class CodePublisher {
    const orchestrator: PatchWorkflowOrchestrator

    constructor (orchestrator: PatchWorkflowOrchestrator)
      ensures this.orchestrator == orchestrator
    {
      this.orchestrator := orchestrator;
    }

    /** One attempt with a list that may already have been validated against the default branch d. */
    method Attempt(files: seq<FileChange>, title: string, branch: string, ghost cs: seq<Change>, ghost d: Tree)
      returns (o: Outcome)
      requires Distinct(files) && |files| == |cs|
      requires forall i :: 0 <= i < |cs| ==> files[i].View() == cs[i] || files[i].View() == Validated(cs[i], d)
      requires
        var client := orchestrator.client;
        d == if client.defaultBranch in client.branches then client.branches[client.defaultBranch] else map[]
      modifies files, orchestrator.client`branches, orchestrator.client`pulls, orchestrator.client`faults
      ensures orchestrator.client.branches - {branch} == old(orchestrator.client.branches) - {branch}
      ensures forall i :: 0 <= i < |cs| ==> files[i].View() == cs[i] || files[i].View() == Validated(cs[i], d)
      ensures o.Returned? ==> (o.result.success <==> o.result.error.None?)
      ensures o.RaisedValueError? ==>
                orchestrator.client.branches == old(orchestrator.client.branches)
                && orchestrator.client.pulls == old(orchestrator.client.pulls)
      ensures o.Returned? && o.result.success ==>
        && orchestrator.baseBranch in old(orchestrator.client.branches)
        && branch in orchestrator.client.branches
        && AppliedAll(ValidatedAll(cs, d), old(orchestrator.client.branches)[orchestrator.baseBranch])
           == Some(orchestrator.client.branches[branch])
        && orchestrator.client.branches
           == old(orchestrator.client.branches)[branch := orchestrator.client.branches[branch]]
      ensures old(Faultless(orchestrator.client.faults)) ==>
        && Faultless(orchestrator.client.faults) && !o.RaisedTransportError?
        && (o.RaisedValueError? <==> exists i :: 0 <= i < |cs| && cs[i].kind.Delete? && cs[i].sha.None?)
        && (o.Returned? && orchestrator.baseBranch in old(orchestrator.client.branches) ==>
              && (o.result.success <==>
                    && branch !in old(orchestrator.client.branches)
                    && GoesThrough(cs, d, old(orchestrator.client.branches)[orchestrator.baseBranch]))
              && (!o.result.success ==>
                    && orchestrator.client.branches == old(orchestrator.client.branches) - {branch}
                    && o.result.error != Some(ReferenceUpdateFailed)
                    && (o.result.error == Some(AlreadyExists) <==> branch in old(orchestrator.client.branches))))
    {
      hide Validated, AppliedAll, GoesThrough;
      ValidationIsIdempotent(cs, Views(files), d);
      KindsAreKept(cs, Views(files), d);
      o := orchestrator.ApplyPatch(files, title, branch);
      if orchestrator.baseBranch in old(orchestrator.client.branches) {
        GoesThroughExactly(cs, d, old(orchestrator.client.branches)[orchestrator.baseBranch]);
      }
    }

    /** The publishing step of the code generator and of the merge agent: when the branch turns out to
        exist, or GitHub reports that a reference could not be updated, the same list of changes is applied
        again to another branch.

        When nothing else goes wrong and the branch did exist, the second attempt ends with the branch
        that a first attempt would have made, under the other name; the branch that existed before is
        gone, because the first attempt rolled back.  A deletion without a sha is refused before any of that. */
    method Publish(files: seq<FileChange>, title: string, branch: string, retryBranch: string)
      returns (first: Outcome, o: Outcome, retried: bool)
      requires Distinct(files)
      modifies files, orchestrator.client`branches, orchestrator.client`pulls, orchestrator.client`faults
      ensures retried <==>
                first.Returned?
                && (first.result.error == Some(AlreadyExists) || first.result.error == Some(ReferenceUpdateFailed))
      ensures !retried ==> o == first
      ensures
        var client := orchestrator.client;
        var base := orchestrator.baseBranch;
        var cs := old(Views(files));
        && (client.branches - {branch} - {retryBranch} == old(client.branches) - {branch} - {retryBranch})
        && (o.Returned? && o.result.success && retried && branch != base && branch != client.defaultBranch ==>
              && retryBranch in client.branches && base in old(client.branches)
              && AppliedAll(ValidatedAll(cs, old(client.DefaultTree())), old(client.branches)[base])
                 == Some(client.branches[retryBranch]))
        && (old(Faultless(client.faults)) && base in old(client.branches) ==>
              && (o.RaisedValueError? <==> exists i :: 0 <= i < |cs| && cs[i].kind.Delete? && cs[i].sha.None?)
              && (o.RaisedValueError? ==> !retried && client.branches == old(client.branches))
              && (first.Returned? ==> (retried <==> branch in old(client.branches))))
        && (old(Faultless(client.faults))
            && base in old(client.branches) && branch in old(client.branches)
            && branch != base && branch != client.defaultBranch
            && retryBranch !in old(client.branches)
            && GoesThrough(cs, old(client.DefaultTree()), old(client.branches)[base]) ==>
              && o.Returned? && o.result.success && retried
              && branch !in client.branches
              && client.branches == (old(client.branches) - {branch})[retryBranch := client.branches[retryBranch]])
    {
      hide Validated, AppliedAll, GoesThrough;
      ghost var cs, d := Views(files), orchestrator.client.DefaultTree();
      ghost var before := orchestrator.client.branches;
      retried := false;
      o := Attempt(files, title, branch, cs, d);
      first := o;
      SameElsewhere(orchestrator.client.branches, before, branch);
      DeletionsHaveShas(cs, d, before, orchestrator.baseBranch);
      if o.Returned? && !o.result.success
         && (o.result.error == Some(AlreadyExists) || o.result.error == Some(ReferenceUpdateFailed)) {
        ghost var between := orchestrator.client.branches;
        retried := true;
        KindsAreKept(cs, Views(files), d);
        ghost var patch := if branch != orchestrator.client.defaultBranch then cs else Views(files);
        o := Attempt(files, title, retryBranch, patch, orchestrator.client.DefaultTree());
        SameElsewhere(orchestrator.client.branches, between, retryBranch);
      }
    }
  }

  /** A patch that goes through has a sha for every deletion. */
  lemma DeletionsHaveShas(cs: seq<Change>, d: Tree, branches: map<string, Tree>, base: string)
    ensures base in branches && GoesThrough(cs, d, branches[base]) ==>
              forall i :: 0 <= i < |cs| && cs[i].kind.Delete? ==> cs[i].sha.Some?
  {
  }

  /** Validation neither adds nor drops a deletion, and gives none a sha. */
  lemma KindsAreKept(cs: seq<Change>, mixed: seq<Change>, t: Tree)
    requires |mixed| == |cs|
    requires forall i :: 0 <= i < |cs| ==> mixed[i] == cs[i] || mixed[i] == Validated(cs[i], t)
    ensures forall i :: 0 <= i < |cs| ==> (mixed[i].kind.Delete? <==> cs[i].kind.Delete?)
    ensures forall i :: 0 <= i < |cs| && cs[i].kind.Delete? ==> mixed[i] == cs[i]
  {
  }

  lemma SameElsewhere<V>(m: map<string, V>, before: map<string, V>, k: string)
    requires m - {k} == before - {k}
    ensures forall x :: x != k ==> (x in m <==> x in before)
    ensures forall x :: x != k && x in m ==> m[x] == before[x]
  {
    assert (m - {k}).Keys == m.Keys - {k} && (before - {k}).Keys == before.Keys - {k};
    forall x | x != k ensures x in m <==> x in before {
      assert x in (m - {k}).Keys <==> x in (before - {k}).Keys;
    }
    forall x | x in m && x != k ensures m[x] == before[x] {
      assert (m - {k})[x] == (before - {k})[x];
    }
  }
}
