/** Every entry at a refused path of a reachable commit is an old one, over whole runs. */
module PolicyHistory {
  import opened GitIndex
  import opened Staging
  import opened StagingTheorems
  import opened BlockedPaths
  import opened CommitGraph
  import opened RefMachine
  import opened HistoryInvariant

  /** At refused paths, only entries some commit of these refs has there. */
  ghost function Old(env: Env, store: Store, refs: Refs): Good {
    (p: string, e: Entry) => !env.refused(p) || WasThere(store, refs, p, e)
  }

  ghost predicate WasThere(store: Store, refs: Refs, p: string, e: Entry) {
    exists a: CommitId :: a < |store| && Reachable(store, refs, a) && p in store[a].tree && store[a].tree[p] == e
  }

  /** Refused paths matter to a property, the others do not. */
  ghost predicate OnlyRefused(env: Env, good: Good) {
    forall p, e :: !env.refused(p) ==> good(p, e)
  }

  /** A commit the hook lets in with its ancestors has at refused paths only what was good before. */
  lemma {:induction false} CheckedAncestorIsGood(env: Env, good: Good, s: State, tip: CommitId, c: CommitId)
    requires HistoryKept(good, s) && OnlyRefused(env, good) && ValidStore(s.store) && HookAcceptsPaths(env, s.store, s.refs, tip)
    requires c < |s.store| && Ancestor(s.store, c, tip)
    ensures GoodTree(good, s.store[c].tree)
    decreases c
  {
    if Reachable(s.store, s.refs, c) {
      ReachableIsGood(good, s, c);
      assert Ancestor(s.store, c, c);
    } else {
      forall p | p in s.store[c].tree && env.refused(p) ensures good(p, s.store[c].tree[p]) {
        assert !Listed(s.store, c, p);
        var j :| 0 <= j < |s.store[c].parents| && SameEntry(s.store, c, s.store[c].parents[j], p);
        var parent := s.store[c].parents[j];
        assert Ancestor(s.store, parent, parent);
        assert Ancestor(s.store, parent, c);
        AncestorTransitive(s.store, parent, c, tip);
        CheckedAncestorIsGood(env, good, s, tip, parent);
        assert good(p, s.store[parent].tree[p]);
      }
    }
  }

  /**
   * A build asks the policy, and the deepest pending puts at refused paths put back what the tree
   * has: what BuildKeepsExactly shows to be necessary and sufficient for the build.
   */
  ghost predicate PolicyMet(env: Env, tree: Index, step: Step)
    requires step.Build?
  {
    (forall p :: env.refused(p) ==> !step.allowed(p)) &&
    (StageOps(Start(tree), step.ops, step.allowed).Ok? ==>
      PendingKeeps(tree, StageOps(Start(tree), step.ops, step.allowed).value, step.cleaning, env.refused))
  }

  /** A build that asks the policy meets it when no move re-keys a pending put onto a refused path. */
  lemma GuardMeetsPolicy(env: Env, tree: Index, step: Step)
    requires step.Build? && (forall p :: env.refused(p) ==> !step.allowed(p))
    requires PendingMovesPermitted(Start(tree), step.ops, step.allowed)
    ensures PolicyMet(env, tree, step)
  {
    PermittedExactly(Start(tree), step.ops, step.allowed);
  }

  lemma BuildKeepsGood(env: Env, good: Good, tree: Index, step: Step)
    requires step.Build? && step.result.Ok? && PrefixFree(tree) && GoodTree(good, tree) && OnlyRefused(env, good)
    requires BuildOutcome(env, tree, step.ops, step.allowed, step.cleaning, step.result)
    requires PolicyMet(env, tree, step)
    ensures GoodTree(good, step.result.value)
  {
    BuildKeepsExactly(tree, step.ops, step.allowed, env.refused, step.cleaning, step.result);
    forall p | p in step.result.value ensures good(p, step.result.value[p]) {
      if env.refused(p) {
        assert Same(tree, step.result.value, p);
        assert good(p, tree[p]);
      }
    }
  }

  /** The assumptions about the surroundings: builds meet the policy, and branches are made at reachable commits. */
  ghost predicate Surroundings(env: Env, s: State, step: Step) {
    (step.Build? && step.r in s.requests && s.requests[step.r].Building? ==> PolicyMet(env, BaseTree(s.store, s.requests[step.r].base), step)) &&
    (step.Create? ==> Reachable(s.store, s.refs, step.id))
  }

  ghost predicate RunsIn(env: Env, s: State, steps: seq<Step>) {
    forall k :: 0 <= k < |steps| ==> Surroundings(env, Run(env, s, steps[..k]), steps[k])
  }

  lemma StepOwesOld(env: Env, good: Good, s: State, step: Step)
    requires Sound(s) && OnlyRefused(env, good) && Surroundings(env, s, step)
    ensures StepOwes(env, good, s, step)
  {
    if step.Build? {
      if step.r in s.requests && s.requests[step.r].Building? && step.result.Ok? {
        var tree := BaseTree(s.store, s.requests[step.r].base);
        if BuildOutcome(env, tree, step.ops, step.allowed, step.cleaning, step.result) && GoodTree(good, tree) {
          BuildKeepsGood(env, good, tree, step);
        }
      }
    } else if step.Create? {
      if HistoryKept(good, s) {
        ReachableIsGood(good, s, step.id);
      }
    } else if step.HookCheck? {
      if HistoryKept(good, s) && HookAccepts(env, s.store, s.refs, step.tip) {
        forall c: CommitId | c < |s.store| && Ancestor(s.store, c, step.tip) ensures GoodTree(good, s.store[c].tree) {
          CheckedAncestorIsGood(env, good, s, step.tip, c);
        }
      }
    }
  }

  /**
   * Whole-run policy invariant: under fixed refused paths, every interleaving of accepted pushes,
   * API commits, branch creations at reachable commits and deletions leaves at refused paths of
   * reachable commits only entries that a commit reachable at the start had at that very path.
   */
  lemma BlockedEntriesAreOld(env: Env, s: State, steps: seq<Step>)
    requires AtRest(s) && RunsIn(env, s, steps)
    ensures var final := Run(env, s, steps);
            forall a: CommitId, p :: a < |final.store| && Reachable(final.store, final.refs, a) && p in final.store[a].tree && env.refused(p) ==>
              WasThere(s.store, s.refs, p, final.store[a].tree[p])
  {
    var good := Old(env, s.store, s.refs);
    StartIsOld(env, s);
    forall k | 0 <= k < |steps| ensures StepOwes(env, good, Run(env, s, steps[..k]), steps[k]) {
      RunSound(env, s, steps[..k]);
      assert Surroundings(env, Run(env, s, steps[..k]), steps[k]);
      StepOwesOld(env, good, Run(env, s, steps[..k]), steps[k]);
    }
    RunKept(env, good, s, steps);
    var final := Run(env, s, steps);
    forall a: CommitId, p | a < |final.store| && Reachable(final.store, final.refs, a) && p in final.store[a].tree && env.refused(p)
      ensures WasThere(s.store, s.refs, p, final.store[a].tree[p])
    {
      assert GoodTree(good, final.store[a].tree);
      assert good(p, final.store[a].tree[p]);
    }
  }

  lemma StartIsOld(env: Env, s: State)
    requires AtRest(s)
    ensures GoodRefs(Old(env, s.store, s.refs), s.store, s.refs)
  {
    forall r, a: CommitId, p | r in s.refs && a < |s.store| && Ancestor(s.store, a, s.refs[r]) && p in s.store[a].tree
      ensures Old(env, s.store, s.refs)(p, s.store[a].tree[p])
    {
      assert Reachable(s.store, s.refs, a);
    }
  }
}
