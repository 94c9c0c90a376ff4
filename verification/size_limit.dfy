/** Every blob reachable from a ref stays below the size limit. */
module SizeLimit {
  import opened Paths
  import opened Results
  import opened GitIndex
  import opened CommitOps
  import opened Staging
  import opened Replay
  import opened CommitGraph
  import opened RefMachine
  import opened HistoryInvariant
  import CleanSmudge

  function Small(env: Env): Good {
    (p: string, e: Entry) => env.size(e.sha) < env.threshold
  }

  /** The clean filter returns the blob it was given or one that WriteBlob accepted. */
  ghost predicate FilterKeepsLimit(env: Env, c: Cleaning) {
    c.clean.Some? ==>
      forall path, sha, size ::
        c.clean.value(path, sha, size).Ok? ==>
          c.clean.value(path, sha, size).value == sha || env.size(c.clean.value(path, sha, size).value) < env.threshold
  }

  /** The service's filter, when each of its calls finds the blobs, rows and objects given. */
  function ServiceFilter(cfg: CleanSmudge.Config, found: (string, string, nat) -> CleanSmudge.Files): (string, string, nat) -> Result<string> {
    (path: string, sha: string, size: nat) => CleanSmudge.Cleaned(cfg, found(path, sha, size), sha, size).1
  }

  ghost predicate SizesAgree(env: Env, cfg: CleanSmudge.Config) {
    env.threshold == cfg.threshold && forall content :: env.size(cfg.blobId(content)) == |content|
  }

  lemma CleanedSize(env: Env, cfg: CleanSmudge.Config, f: CleanSmudge.Files, sha: string, size: nat, r: Result<string>)
    requires SizesAgree(env, cfg) && r == CleanSmudge.Cleaned(cfg, f, sha, size).1
    ensures r.Ok? ==> r.value == sha || env.size(r.value) < env.threshold
  {
    CleanSmudge.CleanKeepsLimit(cfg, f, sha, size);
  }

  /** It keeps the limit whatever its calls find. */
  lemma ServiceFilterKeepsLimit(env: Env, cfg: CleanSmudge.Config, found: (string, string, nat) -> CleanSmudge.Files, c: Cleaning)
    requires SizesAgree(env, cfg) && c.clean == Some(ServiceFilter(cfg, found))
    ensures FilterKeepsLimit(env, c)
  {
    forall path, sha, size: nat
      ensures var r := c.clean.value(path, sha, size); r.Ok? ==> r.value == sha || env.size(r.value) < env.threshold
    {
      CleanedSize(env, cfg, found(path, sha, size), sha, size, c.clean.value(path, sha, size));
    }
  }

  // ------------------------------------------------------------------- builds

  /** Whatever is staged comes from the tree or from a put of the request. */
  ghost predicate SmallStaged(env: Env, s: Staged) {
    GoodTree(Small(env), s.index) && SmallPuts(env, s.pending)
  }

  ghost predicate SmallPuts(env: Env, pending: PendingPuts) {
    forall p :: p in pending ==> env.size(pending[p].blobSHA) < env.threshold
  }

  lemma SmallOp(env: Env, s: Staged, op: CommitOp, allowed: CheckWrite)
    requires SmallStaged(env, s) && (op.IsPut() ==> env.size(op.blobSHA) < env.threshold)
    requires StageOp(s, op, allowed).Ok?
    ensures SmallStaged(env, StageOp(s, op, allowed).value)
  {
    if op.IsMove() {
      SmallRelabel(env, s.index, op.moveFrom, op.path);
      SmallMovePending(env, s.pending, op.moveFrom, op.path);
    } else if op.IsDelete() {
      assert SmallPuts(env, Without(s.pending, op.path));
    } else {
      SmallPutStep(env, s, op);
    }
  }

  lemma SmallRelabel(env: Env, index: Index, from: string, destination: string)
    requires GoodTree(Small(env), index)
    ensures GoodTree(Small(env), Relabel(index, from, destination))
  {
    forall t | t in Relabel(index, from, destination) ensures Small(env)(t, Relabel(index, from, destination)[t]) {
      MovedAt(index, from, destination, t);
      if t in Moved(index, from, destination) {
        assert Small(env)(Rebase(t, destination, from), index[Rebase(t, destination, from)]);
      } else {
        assert Small(env)(t, index[t]);
      }
    }
  }

  lemma SmallMovePending(env: Env, pending: PendingPuts, from: string, destination: string)
    requires SmallPuts(env, pending)
    ensures SmallPuts(env, MovePending(pending, from, destination))
  {
    forall t | t in MovePending(pending, from, destination)
      ensures env.size(MovePending(pending, from, destination)[t].blobSHA) < env.threshold
    {
      MovedAt(pending, from, destination, t);
    }
  }

  lemma SmallPutStep(env: Env, s: Staged, op: CommitOp)
    requires SmallStaged(env, s) && env.size(op.blobSHA) < env.threshold
    ensures SmallStaged(env, Staged(Put(s.index, op.path, EntryOf(op)), Without(s.pending, op.path)[op.path := op]))
  {
    forall p | p in Put(s.index, op.path, EntryOf(op)) ensures Small(env)(p, Put(s.index, op.path, EntryOf(op))[p]) {
      if p != op.path {
        assert Small(env)(p, s.index[p]);
      }
    }
  }

  lemma {:induction false} SmallOps(env: Env, s: Staged, ops: seq<CommitOp>, allowed: CheckWrite)
    requires SmallStaged(env, s) && forall op :: op in ops && op.IsPut() ==> env.size(op.blobSHA) < env.threshold
    requires StageOps(s, ops, allowed).Ok?
    ensures SmallStaged(env, StageOps(s, ops, allowed).value)
    decreases ops
  {
    if ops != [] {
      SmallOp(env, s, ops[0], allowed);
      SmallOps(env, StageOp(s, ops[0], allowed).value, ops[1..], allowed);
    }
  }

  /** A build from a small tree gives a small tree: raw puts, pointers and moved entries alike. */
  lemma SmallBuild(env: Env, tree: Index, ops: seq<CommitOp>, allowed: CheckWrite, c: Cleaning, result: Result<Index>)
    requires GoodTree(Small(env), tree) && BuildOutcome(env, tree, ops, allowed, c, result) && result.Ok?
    requires FilterKeepsLimit(env, c)
    ensures GoodTree(Small(env), result.value)
  {
    SmallOps(env, Staged(tree, map[]), ops, allowed);
    var s := StageOps(Staged(tree, map[]), ops, allowed).value;
    var cleaned := CleanedEntries(c, s);
    forall p | p in cleaned ensures Small(env)(p, cleaned[p]) {
      SmallPut(env, c, s.index, s.pending[p]);
    }
    SmallOverride(env, s.index, cleaned);
  }

  lemma SmallPut(env: Env, c: Cleaning, index: Index, op: CommitOp)
    requires FilterKeepsLimit(env, c) && env.size(op.blobSHA) < env.threshold && c.Cleaned(index, op).Ok?
    ensures env.size(c.Cleaned(index, op).value.blobSHA) < env.threshold
  {
  }

  lemma SmallOverride(env: Env, index: Index, puts: Index)
    requires GoodTree(Small(env), index) && GoodTree(Small(env), puts)
    ensures GoodTree(Small(env), Overridden(index, puts))
  {
    forall p | p in Overridden(index, puts) ensures Small(env)(p, Overridden(index, puts)[p]) {
      assert p in puts ==> Small(env)(p, puts[p]);
      assert p in index ==> Small(env)(p, index[p]);
    }
  }

  // --------------------------------------------------------------- whole runs

  /** What the hook accepts is small: new blobs were checked, the others are reachable already. */
  lemma CheckedTipIsSmall(env: Env, s: State, tip: CommitId)
    requires HistoryKept(Small(env), s) && HookAcceptsSizes(env, s.store, s.refs, tip)
    ensures GoodHistory(Small(env), s.store, tip)
  {
    forall a: CommitId, p | a < |s.store| && Ancestor(s.store, a, tip) && p in s.store[a].tree
      ensures Small(env)(p, s.store[a].tree[p])
    {
      var sha := s.store[a].tree[p].sha;
      if KnownBlob(s.store, s.refs, sha) {
        var b: CommitId, q :| b < |s.store| && Reachable(s.store, s.refs, b) && q in s.store[b].tree && s.store[b].tree[q].sha == sha;
        ReachableIsGood(Small(env), s, b);
        assert Ancestor(s.store, b, b);
        assert Small(env)(q, s.store[b].tree[q]);
      }
    }
  }

  /** The assumptions about the surroundings: the filter above, and branches made at reachable commits. */
  ghost predicate Surroundings(env: Env, s: State, step: Step) {
    (step.Build? ==> FilterKeepsLimit(env, step.cleaning)) &&
    (step.Create? ==> Reachable(s.store, s.refs, step.id))
  }

  ghost predicate RunsIn(env: Env, s: State, steps: seq<Step>) {
    forall k :: 0 <= k < |steps| ==> Surroundings(env, Run(env, s, steps[..k]), steps[k])
  }

  lemma StepOwesSmall(env: Env, s: State, step: Step)
    requires Surroundings(env, s, step)
    ensures StepOwes(env, Small(env), s, step)
  {
    if step.Build? {
      if step.r in s.requests && s.requests[step.r].Building? && step.result.Ok? {
        var tree := BaseTree(s.store, s.requests[step.r].base);
        if BuildOutcome(env, tree, step.ops, step.allowed, step.cleaning, step.result) && GoodTree(Small(env), tree) {
          SmallBuild(env, tree, step.ops, step.allowed, step.cleaning, step.result);
        }
      }
    } else if step.Create? {
      if HistoryKept(Small(env), s) {
        ReachableIsGood(Small(env), s, step.id);
      }
    } else if step.HookCheck? {
      if HistoryKept(Small(env), s) && HookAccepts(env, s.store, s.refs, step.tip) {
        CheckedTipIsSmall(env, s, step.tip);
      }
    }
  }

  /**
   * Whole-run size invariant: from refs whose reachable blobs are all below the limit, every
   * interleaving of accepted pushes, API commits (raw, cleaned and moved entries), branch
   * creations at reachable commits and deletions keeps every reachable blob below it.
   */
  lemma SizesStayBelowLimit(env: Env, s: State, steps: seq<Step>)
    requires AtRest(s) && RunsIn(env, s, steps) && GoodRefs(Small(env), s.store, s.refs)
    ensures var final := Run(env, s, steps);
            forall a: CommitId, p :: a < |final.store| && Reachable(final.store, final.refs, a) && p in final.store[a].tree ==>
              env.size(final.store[a].tree[p].sha) < env.threshold
  {
    forall k | 0 <= k < |steps| ensures StepOwes(env, Small(env), Run(env, s, steps[..k]), steps[k]) {
      assert Surroundings(env, Run(env, s, steps[..k]), steps[k]);
      StepOwesSmall(env, Run(env, s, steps[..k]), steps[k]);
    }
    RunKept(env, Small(env), s, steps);
    var final := Run(env, s, steps);
    forall a: CommitId, p | a < |final.store| && Reachable(final.store, final.refs, a) && p in final.store[a].tree
      ensures env.size(final.store[a].tree[p].sha) < env.threshold
    {
      assert GoodTree(Small(env), final.store[a].tree);
      assert Small(env)(p, final.store[a].tree[p]);
    }
  }

  /** Why branches must start at reachable commits: the limit survives a creation exactly when the target's history is small. */
  lemma CreateKeepsSizesExactly(env: Env, s: State, ref: string, id: CommitId)
    requires HistoryKept(Small(env), s) && id < |s.store| && UpdateRef(s.refs, ref, id, None).Some?
    ensures HistoryKept(Small(env), Do(env, s, Create(ref, id))) <==> GoodHistory(Small(env), s.store, id)
  {
    if GoodHistory(Small(env), s.store, id) {
      CreateKept(Small(env), s, ref, id);
    }
    assert DoCreate(s, ref, id).refs[ref] == id;
  }

  /** A store at rest whose refs are small but which holds an unreachable commit that is not. */
  lemma CreationCanBreakLimit(env: Env, c: Commit, path: string, ref: string)
    requires PrefixFree(c.tree) && c.parents == [] && path in c.tree && env.size(c.tree[path].sha) >= env.threshold
    ensures var s := State([c], map[], map[], map[], map[], []);
            AtRest(s) && HistoryKept(Small(env), s) && UpdateRef(s.refs, ref, 0, None).Some? &&
            !HistoryKept(Small(env), Do(env, s, Create(ref, 0)))
  {
    var s := State([c], map[], map[], map[], map[], []);
    CreateKeepsSizesExactly(env, s, ref, 0);
    assert Ancestor(s.store, 0, 0);
    assert !Small(env)(path, c.tree[path]);
    assert !GoodTree(Small(env), s.store[0].tree);
  }

  // --------------------------------------------------------------- quarantine

  ghost predicate SmallStore(env: Env, store: Store) {
    forall i :: 0 <= i < |store| ==> GoodTree(Small(env), store[i].tree)
  }

  /**
   * With git's quarantine the objects of a push join the store only once the hook has accepted
   * them, so each blob they hold was checked or known.
   */
  ghost predicate Quarantined(env: Env, s: State, step: Step) {
    (step.Build? ==> FilterKeepsLimit(env, step.cleaning)) &&
    (step.Receive? ==> forall p :: p in step.commit.tree ==>
      env.size(step.commit.tree[p].sha) < env.threshold || KnownBlob(s.store, s.refs, step.commit.tree[p].sha))
  }

  ghost predicate RunsQuarantined(env: Env, s: State, steps: seq<Step>) {
    forall k :: 0 <= k < |steps| ==> Quarantined(env, Run(env, s, steps[..k]), steps[k])
  }

  lemma SmallStoreStep(env: Env, s: State, step: Step)
    requires Sound(s) && SmallStore(env, s.store) && Quarantined(env, s, step)
    ensures SmallStore(env, Do(env, s, step).store)
  {
    if step.Build? {
      SmallStoreBuild(env, s, step);
    } else if step.Receive? {
      SmallStoreReceive(env, s, step.commit);
    } else {
      assert Do(env, s, step).store == s.store;
    }
  }

  lemma SmallStoreBuild(env: Env, s: State, step: Step)
    requires Sound(s) && SmallStore(env, s.store) && step.Build? && FilterKeepsLimit(env, step.cleaning)
    ensures SmallStore(env, DoBuild(env, s, step).store)
  {
    if step.r in s.requests && s.requests[step.r].Building? {
      var q := s.requests[step.r];
      var tree := BaseTree(s.store, q.base);
      assert SoundRequest(s.store, q);
      assert GoodTree(Small(env), tree);
      if BuildOutcome(env, tree, step.ops, step.allowed, step.cleaning, step.result) && step.result.Ok? {
        SmallBuild(env, tree, step.ops, step.allowed, step.cleaning, step.result);
        SmallCommit(env, s.store, CommitOf(step.result.value, q.base, step.meta));
      }
    }
  }

  lemma SmallCommit(env: Env, store: Store, c: Commit)
    requires SmallStore(env, store) && GoodTree(Small(env), c.tree)
    ensures SmallStore(env, CommitTree(store, c).0)
  {
  }

  lemma SmallStoreReceive(env: Env, s: State, commit: Commit)
    requires SmallStore(env, s.store) && Quarantined(env, s, Receive(commit))
    ensures SmallStore(env, DoReceive(s, commit).store)
  {
    forall p | p in commit.tree ensures Small(env)(p, commit.tree[p]) {
      var sha := commit.tree[p].sha;
      if KnownBlob(s.store, s.refs, sha) {
        var b: CommitId, q :| b < |s.store| && Reachable(s.store, s.refs, b) && q in s.store[b].tree && s.store[b].tree[q].sha == sha;
        assert GoodTree(Small(env), s.store[b].tree);
        assert Small(env)(q, s.store[b].tree[q]);
      }
    }
    SmallCommit(env, s.store, commit);
  }

  /**
   * With quarantine, and from a store that is small throughout, branches may be created at any
   * known commit: every blob of every stored commit, reachable or not, stays below the limit.
   */
  lemma {:induction false} QuarantineKeepsStoreSmall(env: Env, s: State, steps: seq<Step>)
    requires AtRest(s) && SmallStore(env, s.store) && RunsQuarantined(env, s, steps)
    ensures SmallStore(env, Run(env, s, steps).store)
  {
    if steps != [] {
      var init := steps[..|steps| - 1];
      forall k | 0 <= k < |init| ensures Quarantined(env, Run(env, s, init[..k]), init[k]) {
        assert init[..k] == steps[..k];
      }
      QuarantineKeepsStoreSmall(env, s, init);
      RunSound(env, s, init);
      assert Quarantined(env, Run(env, s, steps[..|steps| - 1]), steps[|steps| - 1]);
      SmallStoreStep(env, Run(env, s, init), steps[|steps| - 1]);
    }
  }
}
