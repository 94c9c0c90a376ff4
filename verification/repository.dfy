/** A bare repository and the three operations of the API that move its branches. */
module RepositoryModel {
  import opened Results
  import opened GitIndex
  import opened CommitOps
  import opened Staging
  import opened Replay
  import opened CommitGraph
  import opened RefMachine
  import opened StagingMeaning
  import opened StagingTheorems

  /** A commit request; expectedOld is None when it is not a well-formed object id. */
  datatype CommitSpec = CommitSpec(
    branch: string,
    expectedOld: Option<Expected>,
    authorName: string,
    authorEmail: string,
    committerName: string,
    committerEmail: string,
    message: string)

  datatype RefChange = RefChange(ref: string, before: Option<CommitId>, after: Option<CommitId>)

  /**
   * What ApplyCommit is given from outside: the time, git's check-ref-format and check-attr, the
   * clean filter (None when LFS is off) and the policy check.
   */
  datatype Surroundings = Surroundings(
    now: int,
    formatOk: string -> bool,
    tracked: (Index, string) -> bool,
    clean: Option<(string, string, nat) -> Result<string>>,
    allowed: CheckWrite)

  datatype BranchError = InvalidBranchName | InvalidRevision | NotFound | Exists | IsDefault | Mismatch

  datatype BranchResult = Changed(change: RefChange) | Refused(error: BranchError)

  function BranchRef(name: string): string {
    "refs/heads/" + name
  }

  /** The name rules; formatOk is git's own check-ref-format. */
  predicate ValidBranchName(name: string, formatOk: string -> bool) {
    name != "" && name[0] != '-' && !("refs/" <= name) && !HasControl(name) && formatOk(name)
  }

  /** The rules and the ref, spelled out: "-x" and "refs/x" are no names. */
  lemma BranchNameRules(name: string, formatOk: string -> bool)
    ensures ValidBranchName(name, formatOk) <==>
            name != "" && name[0] != '-' && !("refs/" <= name) && formatOk(name) &&
            forall i :: 0 <= i < |name| ==> name[i] as int >= 32 && name[i] as int != 127
    ensures BranchRef(name) == "refs/heads/" + name
  {
    assert HasControl(name) <==> exists i :: 0 <= i < |name| && !(name[i] as int >= 32 && name[i] as int != 127);
  }

  /** What commit-tree is given: the committer defaults to the author. */
  function MetaFor(spec: CommitSpec, now: int): Meta {
    var author := spec.authorName + " <" + spec.authorEmail + ">";
    var committer := if spec.committerName == "" then author else spec.committerName + " <" + spec.committerEmail + ">";
    Meta(author, committer, now, spec.message)
  }

  function CommitFor(spec: CommitSpec, tree: Index, base: Option<CommitId>, now: int): Commit {
    CommitOf(tree, base, MetaFor(spec, now))
  }

  ghost predicate PutsKnown(ops: seq<CommitOp>, blobs: map<string, nat>) {
    forall op :: op in ops && op.IsPut() ==> op.blobSHA in blobs
  }

  ghost predicate PutsSmall(ops: seq<CommitOp>, blobs: map<string, nat>, threshold: nat) {
    forall op :: op in ops && op.IsPut() ==> op.blobSHA in blobs && blobs[op.blobSHA] < threshold
  }

  /** cat-file --batch-check over the put blobs: their sizes, or the refusal of a missing one. */
  method VerifyPutInputs(ops: seq<CommitOp>, blobs: map<string, nat>) returns (r: Result<map<string, nat>>)
    ensures r.Ok? <==> PutsKnown(ops, blobs)
    ensures r.Ok? ==> forall sha :: (sha in r.value <==> exists op :: op in ops && op.IsPut() && op.blobSHA == sha)
    ensures r.Ok? ==> forall sha :: sha in r.value ==> sha in blobs && r.value[sha] == blobs[sha]
    ensures r.Err? ==> r.error == UnknownBlob
  {
    var sizes: map<string, nat> := map[];
    var i := 0;
    while i < |ops|
      invariant 0 <= i <= |ops|
      invariant forall j :: 0 <= j < i && ops[j].IsPut() ==> ops[j].blobSHA in sizes
      invariant forall sha :: sha in sizes ==>
                  sha in blobs && sizes[sha] == blobs[sha] && exists op :: op in ops && op.IsPut() && op.blobSHA == sha
    {
      if !ops[i].delete && ops[i].moveFrom == "" {
        if ops[i].blobSHA !in blobs {
          assert ops[i] in ops && ops[i].IsPut();
          return Err(UnknownBlob);
        }
        assert ops[i] in ops && ops[i].IsPut();
        sizes := sizes[ops[i].blobSHA := blobs[ops[i].blobSHA]];
      }
      i := i + 1;
    }
    return Ok(sizes);
  }

  class Repository {
    var store: Store
    var refs: Refs
    var blobs: map<string, nat>
    const head: string
    const threshold: nat

    ghost predicate Valid()
      reads this
    {
      ValidStore(store) && ValidRefs(store, refs)
    }

    /** git init: no commits, no refs, HEAD at the default branch. */
    constructor (head: string, threshold: nat)
      ensures Valid() && store == [] && refs == map[] && blobs == map[]
      ensures this.head == head && this.threshold == threshold
    {
      store, refs, blobs := [], map[], map[];
      this.head, this.threshold := head, threshold;
    }

    /** The checks of ApplyCommit before it stages anything. */
    method CheckCommit(spec: CommitSpec, ops: seq<CommitOp>, git: Surroundings)
      returns (r: Result<Option<CommitId>>, normal: seq<CommitOp>, sizes: map<string, nat>)
      requires Valid()
      ensures r == FirstChecks(spec, ops, refs, blobs, threshold, git.formatOk)
      ensures r.Ok? ==> normal == NormalOps(ops) && SizesOf(normal, blobs, sizes)
      ensures r.Ok? ==> Lookup(refs, BranchRef(spec.branch)) == r.value && PrefixFree(BaseTree(store, r.value))
    {
      normal, sizes := [], map[];
      if !ValidBranchName(spec.branch, git.formatOk) {
        return Err(InvalidBranch), normal, sizes;
      }
      if spec.expectedOld.None? {
        return Err(InvalidRev), normal, sizes;
      }
      if spec.authorName == "" || spec.authorEmail == "" || spec.message == "" {
        return Err(InvalidOps), normal, sizes;
      }
      var valid := ValidateCommitOps(ops);
      if valid.Err? {
        return Err(valid.error), normal, sizes;
      }
      normal := valid.value;
      var base := HeadCheck(refs, BranchRef(spec.branch), spec.expectedOld.value);
      if base.Err? {
        return base, normal, sizes;
      }
      var found := VerifyPutInputs(normal, blobs);
      if found.Err? {
        return Err(found.error), normal, sizes;
      }
      sizes := found.value;
      if exists sha :: sha in sizes && sizes[sha] >= threshold {
        return Err(BlobTooLarge), normal, sizes;
      }
      return base, normal, sizes;
    }

    /** Everything of ApplyCommit up to the new tree. */
    method PrepareCommit(spec: CommitSpec, ops: seq<CommitOp>, git: Surroundings)
      returns (r: Result<(Option<CommitId>, Index)>, ghost built: Result<Index>)
      requires Valid()
      ensures match FirstChecks(spec, ops, refs, blobs, threshold, git.formatOk)
              case Err(e) => r == Err(e)
              case Ok(base) => BuiltFrom(BaseTree(store, base), ops, blobs, git, built) && r == Prepared(store, base, built)
      ensures r.Ok? ==> PrefixFree(r.value.1) && Lookup(refs, BranchRef(spec.branch)) == r.value.0
    {
      built := Err(InvalidOps);
      var base, normal, sizes := CheckCommit(spec, ops, git);
      if base.Err? {
        return Err(base.error), built;
      }
      var tree := BuildTree(BaseTree(store, base.value), normal, git.allowed, Cleaning(git.tracked, git.clean, sizes));
      built := tree;
      return Prepared(store, base.value, tree), built;
    }

    /**
     * ApplyCommit with nobody else at work. A failure changes no ref. A success puts on the
     * branch a commit of the built tree whose only parent is the old head.
     */
    method ApplyCommit(spec: CommitSpec, ops: seq<CommitOp>, git: Surroundings) returns (r: Result<RefChange>, ghost built: Result<Index>)
      requires Valid()
      modifies this`store, this`refs
      ensures Valid() && old(store) <= store && |store| <= |old(store)| + 1 && (FlatRefs(old(refs)) ==> FlatRefs(refs))
      ensures CommitOutcome(spec, ops, git, old(store), old(refs), blobs, threshold, built, r, store, refs)
      ensures r.Err? ==> refs == old(refs)
      ensures r.Ok? ==>
                var ref := "refs/heads/" + spec.branch;
                built.Ok? && r.value == RefChange(ref, if ref in old(refs) then Some(old(refs)[ref]) else None, r.value.after) &&
                r.value.after.Some? && r.value.after.value < |store| && refs == old(refs)[ref := r.value.after.value] &&
                var c := store[r.value.after.value];
                c.tree == built.value && c.parents == (if ref in old(refs) then [old(refs)[ref]] else []) &&
                c.author == spec.authorName + " <" + spec.authorEmail + ">" && c.message == spec.message && c.date == git.now &&
                c.committer == if spec.committerName == "" then c.author else spec.committerName + " <" + spec.committerEmail + ">"
    {
      var prepared;
      prepared, built := PrepareCommit(spec, ops, git);
      if prepared.Err? {
        return Err(prepared.error), built;
      }
      r := CommitAndSwap(BranchRef(spec.branch), CommitFor(spec, prepared.value.1, prepared.value.0, git.now), prepared.value.0);
    }

    /** commit-tree, then update-ref from the head the request started from. */
    method CommitAndSwap(ref: string, commit: Commit, base: Option<CommitId>) returns (r: Result<RefChange>)
      requires Valid() && PrefixFree(commit.tree) && commit.parents == ParentsOf(base) && (base.Some? ==> base.value < |store|)
      modifies this`store, this`refs
      ensures |store| <= |old(store)| + 1 && (FlatRefs(old(refs)) ==> FlatRefs(refs))
      ensures Valid() && old(store) <= store && store == CommitTree(old(store), commit).0
      ensures r.Ok? <==> Lookup(old(refs), ref) == base && (base.Some? || !Collides(old(refs), ref))
      ensures r.Err? ==> r.error == HeadMismatch && refs == old(refs)
      ensures r.Ok? ==>
                r.value == RefChange(ref, base, Some(CommitTree(old(store), commit).1)) &&
                r.value.after.value < |store| && store[r.value.after.value] == commit &&
                refs == old(refs)[ref := r.value.after.value]
    {
      CommitTreeStores(store, commit);
      var made := CommitTree(store, commit);
      store := made.0;
      var updated := UpdateRef(refs, ref, made.1, base);
      if updated.None? {
        return Err(HeadMismatch);
      }
      refs := updated.value;
      return Ok(RefChange(ref, base, Some(made.1)));
    }

    /** A branch of a valid, unused name for a commit the store has. */
    method CreateBranch(name: string, sha: Option<CommitId>, formatOk: string -> bool) returns (r: BranchResult)
      requires Valid()
      modifies this`refs
      ensures Valid() && (FlatRefs(old(refs)) ==> FlatRefs(refs))
      ensures var ref := "refs/heads/" + name;
              var free := forall other :: other in old(refs) ==> other != ref && !(ref + "/" <= other) && !(other + "/" <= ref);
              (r.Changed? <==> ValidBranchName(name, formatOk) && sha.Some? && sha.value < |store| && free) &&
              (r.Changed? ==> r.change == RefChange(ref, None, sha)) &&
              (r.Refused? ==>
                r.error == if !ValidBranchName(name, formatOk) then InvalidBranchName
                           else if sha.None? then InvalidRevision else if sha.value >= |store| then NotFound else Exists) &&
              refs == if r.Changed? then old(refs)[ref := sha.value] else old(refs)
    {
      if !ValidBranchName(name, formatOk) {
        return Refused(InvalidBranchName);
      }
      if sha.None? {
        return Refused(InvalidRevision);
      }
      if sha.value >= |store| {
        return Refused(NotFound);
      }
      var updated := UpdateRef(refs, BranchRef(name), sha.value, None);
      if updated.None? {
        return Refused(Exists);
      }
      refs := updated.value;
      return Changed(RefChange(BranchRef(name), None, sha));
    }

    /** Deletes a branch; never the one HEAD points at. */
    method DeleteBranch(name: string, expectedOld: Option<Expected>, formatOk: string -> bool) returns (r: BranchResult)
      requires Valid()
      modifies this`refs
      ensures Valid() && (FlatRefs(old(refs)) ==> FlatRefs(refs))
      ensures var ref := "refs/heads/" + name;
              (r.Changed? <==> ValidBranchName(name, formatOk) && expectedOld.Some? && ref in old(refs) && ref != head &&
                               (expectedOld.value == Omitted || expectedOld.value == At(old(refs)[ref]))) &&
              (r.Changed? ==> r.change == RefChange(ref, Some(old(refs)[ref]), None)) &&
              (r.Refused? ==>
                r.error == if !ValidBranchName(name, formatOk) then InvalidBranchName
                           else if expectedOld.None? then InvalidRevision
                           else if ref !in old(refs) then NotFound else if ref == head then IsDefault else Mismatch) &&
              refs == if r.Changed? then old(refs) - {ref} else old(refs)
      ensures head in old(refs) ==> head in refs
    {
      if !ValidBranchName(name, formatOk) {
        return Refused(InvalidBranchName);
      }
      if expectedOld.None? {
        return Refused(InvalidRevision);
      }
      var ref := BranchRef(name);
      if ref !in refs {
        return Refused(NotFound);
      }
      if head == ref {
        return Refused(IsDefault);
      }
      if expectedOld.value.Unborn? || (expectedOld.value.At? && expectedOld.value.id != refs[ref]) {
        return Refused(Mismatch);
      }
      var before := refs[ref];
      var updated := DeleteRef(refs, ref, before);
      if updated.None? {
        return Refused(Mismatch);
      }
      refs := updated.value;
      return Changed(RefChange(ref, Some(before), None));
    }
  }

  /** The sizes handed to the clean pass are the odb's sizes of exactly the put blobs. */
  ghost predicate SizesOf(ops: seq<CommitOp>, blobs: map<string, nat>, sizes: map<string, nat>) {
    (forall sha :: sha in sizes <==> exists op :: op in ops && op.IsPut() && op.blobSHA == sha) &&
    (forall sha :: sha in sizes ==> sha in blobs && sizes[sha] == blobs[sha])
  }

  /** What staging, cleaning and replaying an accepted request on a tree come to. */
  ghost predicate BuiltFrom(tree: Index, ops: seq<CommitOp>, blobs: map<string, nat>, git: Surroundings, built: Result<Index>) {
    exists sizes: map<string, nat> ::
      SizesOf(NormalOps(ops), blobs, sizes) && Builds(tree, NormalOps(ops), git.allowed, Cleaning(git.tracked, git.clean, sizes), built)
  }

  /**
   * What ApplyCommit commits, when no put shadows: a tree in which every old entry kept its
   * object wherever it was moved, every put has its cleaned blob, and nothing else is.
   */
  lemma {:induction false} BuiltMeansRequest(tree: Index, ops: seq<CommitOp>, blobs: map<string, nat>, git: Surroundings, built: Result<Index>)
    requires PrefixFree(tree) && BuiltFrom(tree, ops, blobs, git, built) && built.Ok?
    requires NoShadowing(Start(tree), NormalOps(ops), git.allowed)
    ensures RunOps(Trace(tree), NormalOps(ops), git.allowed).Ok?
    ensures var t := RunOps(Trace(tree), NormalOps(ops), git.allowed).value;
            Accounted(tree, t, git.allowed) &&
            exists sizes: map<string, nat> ::
              SizesOf(NormalOps(ops), blobs, sizes) && MeansTree(t, Cleaning(git.tracked, git.clean, sizes), built.value)
  {
    var sizes: map<string, nat> :|
      SizesOf(NormalOps(ops), blobs, sizes) && Builds(tree, NormalOps(ops), git.allowed, Cleaning(git.tracked, git.clean, sizes), built);
    StagingRefinement(tree, NormalOps(ops), git.allowed, Cleaning(git.tracked, git.clean, sizes), built);
  }

  /** The base of a commit, or the first check that refuses it. */
  ghost function FirstChecks(spec: CommitSpec, ops: seq<CommitOp>, refs: Refs, blobs: map<string, nat>, threshold: nat, formatOk: string -> bool):
    Result<Option<CommitId>>
  {
    if !ValidBranchName(spec.branch, formatOk) then Err(InvalidBranch)
    else if spec.expectedOld.None? then Err(InvalidRev)
    else if spec.authorName == "" || spec.authorEmail == "" || spec.message == "" || !Accepted(ops) then Err(InvalidOps)
    else if HeadCheck(refs, BranchRef(spec.branch), spec.expectedOld.value).Err? then
      HeadCheck(refs, BranchRef(spec.branch), spec.expectedOld.value)
    else if !PutsKnown(NormalOps(ops), blobs) then Err(UnknownBlob)
    else if !PutsSmall(NormalOps(ops), blobs, threshold) then Err(BlobTooLarge)
    else HeadCheck(refs, BranchRef(spec.branch), spec.expectedOld.value)
  }

  /** What follows the build: its failure, a tree that is not new, or a tree to commit. */
  function Prepared(store: Store, base: Option<CommitId>, built: Result<Index>): Result<(Option<CommitId>, Index)> {
    match built
    case Err(e) => Err(e)
    case Ok(tree) => if base.Some? && tree == BaseTree(store, base) then Err(NothingToCommit) else Ok((base, tree))
  }

  /** The head a request is built on: the expected one, or none for the first commit of a branch. */
  ghost predicate HeadAsExpected(refs: Refs, ref: string, expected: Expected) {
    if ref in refs then expected == Omitted || expected == At(refs[ref]) else expected == Unborn
  }

  ghost predicate PutsAsked(ops: seq<CommitOp>, ok: string -> bool) {
    forall i :: 0 <= i < |ops| && ops[i].moveFrom == "" && !ops[i].delete ==> ok(ops[i].blobSHA)
  }

  /** When the checks pass, and which one fails first: name, expected head, identities and operations, head, blobs. */
  lemma {:induction false} ChecksPassExactly(spec: CommitSpec, ops: seq<CommitOp>, refs: Refs, blobs: map<string, nat>, threshold: nat, formatOk: string -> bool)
    ensures var ref := "refs/heads/" + spec.branch;
            FirstChecks(spec, ops, refs, blobs, threshold, formatOk) ==
            if !ValidBranchName(spec.branch, formatOk) then Err(InvalidBranch)
            else if spec.expectedOld.None? then Err(InvalidRev)
            else if spec.authorName == "" || spec.authorEmail == "" || spec.message == "" || !ListMeetsRules(ops) then Err(InvalidOps)
            else if !HeadAsExpected(refs, ref, spec.expectedOld.value) then (if ref in refs then Err(HeadMismatch) else Err(RevNotFound))
            else if !PutsAsked(ops, sha => sha in blobs) then Err(UnknownBlob)
            else if !PutsAsked(ops, sha => sha in blobs && blobs[sha] < threshold) then Err(BlobTooLarge)
            else Ok(if ref in refs then Some(refs[ref]) else None)
  {
    AcceptedMeansRules(ops);
    if Accepted(ops) {
      PutsOfNormal(ops, blobs, threshold);
    }
  }

  lemma {:induction false} PutsOfNormal(ops: seq<CommitOp>, blobs: map<string, nat>, threshold: nat)
    requires forall i :: 0 <= i < |ops| ==> IsNormalized(ops[i], NormalOps(ops)[i]) && MeetsRules(ops[i])
    ensures PutsKnown(NormalOps(ops), blobs) <==> PutsAsked(ops, sha => sha in blobs)
    ensures PutsSmall(NormalOps(ops), blobs, threshold) <==> PutsAsked(ops, sha => sha in blobs && blobs[sha] < threshold)
  {
    var normal := NormalOps(ops);
    forall i | 0 <= i < |ops|
      ensures normal[i] in normal && normal[i].blobSHA == ops[i].blobSHA && (normal[i].IsPut() <==> ops[i].moveFrom == "" && !ops[i].delete)
    {
      assert IsNormalized(ops[i], normal[i]);
    }
  }

  /** When a commit succeeds: the checks pass, the build succeeds with a new tree, and no ref is in the way of a first commit. */
  lemma ApplyCommitSucceedsExactly(spec: CommitSpec, ops: seq<CommitOp>, git: Surroundings, store: Store, refs: Refs, blobs: map<string, nat>,
                                   threshold: nat, built: Result<Index>, r: Result<RefChange>, store': Store, refs': Refs)
    requires CommitOutcome(spec, ops, git, store, refs, blobs, threshold, built, r, store', refs') && ValidRefs(store, refs)
    ensures var ref := "refs/heads/" + spec.branch;
            var checks := FirstChecks(spec, ops, refs, blobs, threshold, git.formatOk);
            (r.Ok? <==>
              checks.Ok? && built.Ok? &&
              if ref in refs then built.value != store[refs[ref]].tree
              else forall other :: other in refs ==> !(ref + "/" <= other) && !(other + "/" <= ref)) &&
            (r.Err? ==>
              r.error == if checks.Err? then checks.error else if built.Err? then built.error
                         else if ref in refs then NothingToCommit else HeadMismatch)
  {
    ChecksPassExactly(spec, ops, refs, blobs, threshold, git.formatOk);
  }

  /** What one ApplyCommit does to store and refs, and what it reports. */
  ghost predicate CommitOutcome(spec: CommitSpec, ops: seq<CommitOp>, git: Surroundings,
                                store: Store, refs: Refs, blobs: map<string, nat>, threshold: nat,
                                built: Result<Index>, r: Result<RefChange>, store': Store, refs': Refs) {
    var ref := BranchRef(spec.branch);
    match FirstChecks(spec, ops, refs, blobs, threshold, git.formatOk)
    case Err(e) => r == Err(e) && store' == store && refs' == refs
    case Ok(base) =>
      BuiltFrom(BaseTree(store, base), ops, blobs, git, built) &&
      if Prepared(store, base, built).Err? then
        r == Err(Prepared(store, base, built).error) && store' == store && refs' == refs
      else
        var (made, id) := CommitTree(store, CommitFor(spec, built.value, base, git.now));
        store' == made &&
        if base.None? && Collides(refs, ref) then r == Err(HeadMismatch) && refs' == refs
        else r == Ok(RefChange(ref, base, Some(id))) && refs' == refs[ref := id]
  }

  /** The machine steps of a call that got past its checks and its build. */
  ghost function CommitSteps(k: nat, spec: CommitSpec, expected: Expected, ops: seq<CommitOp>, git: Surroundings,
                             sizes: map<string, nat>, built: Result<Index>): seq<Step>
  {
    [ReadHead(k, BranchRef(spec.branch), expected),
     Build(k, NormalOps(ops), git.allowed, Cleaning(git.tracked, git.clean, sizes), built, MetaFor(spec, git.now)),
     Swap(k)]
  }

  lemma RunThree(env: Env, s: State, steps: seq<Step>)
    requires |steps| == 3
    ensures Run(env, s, steps) == Do(env, Do(env, Do(env, s, steps[0]), steps[1]), steps[2])
  {
    assert steps[..2][..1] == [steps[0]] && steps[..2][1] == steps[1];
    assert [steps[0]][..0] == [];
    assert Run(env, s, []) == s;
    assert Run(env, s, [steps[0]]) == Do(env, s, steps[0]);
    assert Run(env, s, steps[..2]) == Do(env, Run(env, s, [steps[0]]), steps[1]);
  }

  /** A build that succeeded in the method is one the machine's build step accepts. */
  lemma BuiltIsBuildOutcome(env: Env, tree: Index, ops: seq<CommitOp>, blobs: map<string, nat>, git: Surroundings, built: Result<Index>)
    returns (sizes: map<string, nat>)
    requires Accepted(ops) && PutsSmall(NormalOps(ops), blobs, env.threshold) && BuiltFrom(tree, ops, blobs, git, built)
    requires forall sha :: sha in blobs ==> env.size(sha) == blobs[sha]
    ensures BuildOutcome(env, tree, NormalOps(ops), git.allowed, Cleaning(git.tracked, git.clean, sizes), built)
  {
    sizes :|
      SizesOf(NormalOps(ops), blobs, sizes) && Builds(tree, NormalOps(ops), git.allowed, Cleaning(git.tracked, git.clean, sizes), built);
    ValidationIsNormalForm(ops);
  }

  /**
   * Every call of ApplyCommit, successful or not, is a run of the ref machine: the steps given
   * lead from any state with the call's store and refs to the store and refs the call leaves, and
   * log exactly the success the call reports.
   */
  lemma {:induction false} ApplyCommitIsARun(env: Env, s: State, k: nat, spec: CommitSpec, ops: seq<CommitOp>, git: Surroundings, blobs: map<string, nat>,
                          built: Result<Index>, r: Result<RefChange>, store': Store, refs': Refs) returns (steps: seq<Step>)
    requires CommitOutcome(spec, ops, git, s.store, s.refs, blobs, env.threshold, built, r, store', refs')
    requires k !in s.requests && forall sha :: sha in blobs ==> env.size(sha) == blobs[sha]
    ensures var final := Run(env, s, steps);
            final.store == store' && final.refs == refs' &&
            final.log == if r.Err? then s.log
                         else s.log + [Committed(k, r.value.ref, spec.expectedOld.value, r.value.before, r.value.after.value)]
  {
    var checks := FirstChecks(spec, ops, s.refs, blobs, env.threshold, git.formatOk);
    if checks.Err? || Prepared(s.store, checks.value, built).Err? {
      steps := [];
    } else {
      var base := checks.value;
      ChecksPassed(spec, ops, s.refs, blobs, env.threshold, git.formatOk);
      var expected := spec.expectedOld.value;
      var sizes := BuiltIsBuildOutcome(env, BaseTree(s.store, base), ops, blobs, git, built);
      steps := CommitSteps(k, spec, expected, ops, git, sizes, built);
      RunThree(env, s, steps);
      ReadBuildSwap(env, s, BranchRef(spec.branch), expected, base, steps[1]);
    }
  }

  /** What is known once the checks have passed. */
  lemma ChecksPassed(spec: CommitSpec, ops: seq<CommitOp>, refs: Refs, blobs: map<string, nat>, threshold: nat, formatOk: string -> bool)
    requires FirstChecks(spec, ops, refs, blobs, threshold, formatOk).Ok?
    ensures spec.expectedOld.Some? && Accepted(ops) && PutsSmall(NormalOps(ops), blobs, threshold)
    ensures HeadCheck(refs, BranchRef(spec.branch), spec.expectedOld.value) == FirstChecks(spec, ops, refs, blobs, threshold, formatOk)
  {
  }

  /** Reading the head, building and swapping with no other step between. */
  lemma ReadBuildSwap(env: Env, s: State, ref: string, expected: Expected, base: Option<CommitId>, build: Step)
    requires build.Build? && build.r !in s.requests && HeadCheck(s.refs, ref, expected) == Ok(base)
    requires build.result.Ok? && Prepared(s.store, base, build.result).Ok?
    requires BuildOutcome(env, BaseTree(s.store, base), build.ops, build.allowed, build.cleaning, build.result)
    ensures var final := Do(env, Do(env, Do(env, s, ReadHead(build.r, ref, expected)), build), Swap(build.r));
            var (store, id) := CommitTree(s.store, CommitOf(build.result.value, base, build.meta));
            final.store == store &&
            if base.None? && Collides(s.refs, ref) then final.refs == s.refs && final.log == s.log
            else final.refs == s.refs[ref := id] && final.log == s.log + [Committed(build.r, ref, expected, base, id)]
  {
    ReadStep(env, s, build.r, ref, expected, base);
    var s1 := Do(env, s, ReadHead(build.r, ref, expected));
    BuildStep(env, s1, build);
    var (store, id) := CommitTree(s.store, CommitOf(build.result.value, base, build.meta));
    SwapStep(env, Do(env, s1, build), build.r, ref, expected, base, id);
  }

  lemma SwapStep(env: Env, s: State, k: nat, ref: string, expected: Expected, base: Option<CommitId>, id: CommitId)
    requires k in s.requests && s.requests[k] == Swapping(ref, expected, base, id) && Lookup(s.refs, ref) == base
    ensures var s' := Do(env, s, Swap(k));
            s'.store == s.store &&
            if base.None? && Collides(s.refs, ref) then s'.refs == s.refs && s'.log == s.log
            else s'.refs == s.refs[ref := id] && s'.log == s.log + [Committed(k, ref, expected, base, id)]
  {
  }

  lemma ReadStep(env: Env, s: State, k: nat, ref: string, expected: Expected, base: Option<CommitId>)
    requires k !in s.requests && HeadCheck(s.refs, ref, expected) == Ok(base)
    ensures Do(env, s, ReadHead(k, ref, expected)) == s.(requests := s.requests[k := Building(ref, expected, base)])
    ensures Lookup(s.refs, ref) == base
  {
  }

  lemma BuildStep(env: Env, s: State, step: Step)
    requires step.Build? && step.r in s.requests && s.requests[step.r].Building? && step.result.Ok?
    requires var q := s.requests[step.r];
             BuildOutcome(env, BaseTree(s.store, q.base), step.ops, step.allowed, step.cleaning, step.result) &&
             (q.base.Some? ==> step.result.value != BaseTree(s.store, q.base))
    ensures var q := s.requests[step.r];
            var (store, id) := CommitTree(s.store, CommitOf(step.result.value, q.base, step.meta));
            Do(env, s, step) == s.(store := store, requests := s.requests[step.r := Swapping(q.ref, q.expected, q.base, id)])
  {
  }
}
