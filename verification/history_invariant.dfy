/**
 * Properties of every entry in every reachable commit: what each step must do to keep one, and
 * that every run then keeps it.
 */
module HistoryInvariant {
  import opened Results
  import opened GitIndex
  import opened CommitGraph
  import opened RefMachine

  /** Whether an entry at a path is as it should be. */
  type Good = (string, Entry) -> bool

  ghost predicate GoodTree(good: Good, tree: Index) {
    forall p :: p in tree ==> good(p, tree[p])
  }

  /** All trees from a commit down are good. */
  ghost predicate GoodHistory(good: Good, store: Store, id: CommitId) {
    forall a: CommitId :: a < |store| && Ancestor(store, a, id) ==> GoodTree(good, store[a].tree)
  }

  ghost predicate GoodBase(good: Good, store: Store, base: Option<CommitId>) {
    base.Some? ==> GoodHistory(good, store, base.value)
  }

  ghost predicate GoodRequest(good: Good, store: Store, q: Request) {
    (q.Building? ==> GoodBase(good, store, q.base)) &&
    (q.Swapping? ==> GoodHistory(good, store, q.commit))
  }

  ghost predicate GoodRefs(good: Good, store: Store, refs: Refs) {
    forall r :: r in refs ==> GoodHistory(good, store, refs[r])
  }

  ghost predicate GoodTips(good: Good, store: Store, tips: set<CommitId>) {
    forall tip :: tip in tips ==> tip < |store| && GoodHistory(good, store, tip)
  }

  /** The property holds for the refs, for what requests read or built, and for what the hook let in. */
  ghost predicate HistoryKept(good: Good, s: State) {
    GoodRefs(good, s.store, s.refs) &&
    (forall r :: r in s.requests ==> GoodRequest(good, s.store, s.requests[r])) &&
    (forall p :: p in s.checked ==> GoodTips(good, s.store, s.checked[p]))
  }

  /** What a step owes: a build keeps it, a branch starts at a good history, the hook lets in no other. */
  ghost predicate StepOwes(env: Env, good: Good, s: State, step: Step) {
    match step
    case Build(r, ops, allowed, cleaning, result, _) =>
      (r in s.requests && s.requests[r].Building? && result.Ok? &&
       BuildOutcome(env, BaseTree(s.store, s.requests[r].base), ops, allowed, cleaning, result) &&
       GoodTree(good, BaseTree(s.store, s.requests[r].base)))
      ==> GoodTree(good, result.value)
    case Create(_, id) => id < |s.store| && HistoryKept(good, s) ==> GoodHistory(good, s.store, id)
    case HookCheck(_, tip) => HistoryKept(good, s) && HookAccepts(env, s.store, s.refs, tip) ==> GoodHistory(good, s.store, tip)
    case ReadHead(_, _, _) => true
    case Swap(_) => true
    case DeleteRead(_, _, _) => true
    case DeleteSwap(_) => true
    case Receive(_) => true
    case PushUpdate(_, _, _, _) => true
  }

  ghost predicate RunOwes(env: Env, good: Good, s: State, steps: seq<Step>) {
    forall k :: 0 <= k < |steps| ==> StepOwes(env, good, Run(env, s, steps[..k]), steps[k])
  }

  lemma HistoryStable(good: Good, store: Store, more: Store, id: CommitId)
    requires ValidStore(store) && store <= more && id < |store|
    ensures GoodHistory(good, store, id) <==> GoodHistory(good, more, id)
  {
    forall a: CommitId ensures a < |more| && Ancestor(more, a, id) <==> a < |store| && Ancestor(store, a, id) {
      AncestorStable(store, more, a, id);
      if Ancestor(more, a, id) {
        AncestorIsOlder(more, a, id);
      }
    }
    assert forall a: CommitId :: a < |store| ==> store[a] == more[a];
  }

  /** A commit with a good tree on a good base has a good history. */
  lemma GoodChild(good: Good, store: Store, id: CommitId, base: Option<CommitId>)
    requires ValidStore(store) && id < |store| && GoodTree(good, store[id].tree)
    requires store[id].parents == ParentsOf(base) && GoodBase(good, store, base)
    ensures GoodHistory(good, store, id)
  {
    forall a: CommitId | a < |store| && Ancestor(store, a, id) ensures GoodTree(good, store[a].tree) {
      if a != id {
        assert store[id].parents[0] == base.value;
        assert Ancestor(store, a, base.value);
      }
    }
  }

  lemma ReachableIsGood(good: Good, s: State, id: CommitId)
    requires HistoryKept(good, s) && Reachable(s.store, s.refs, id)
    ensures GoodHistory(good, s.store, id)
  {
    var r :| r in s.refs && Ancestor(s.store, id, s.refs[r]);
    forall a: CommitId | a < |s.store| && Ancestor(s.store, a, id) ensures GoodTree(good, s.store[a].tree) {
      AncestorTransitive(s.store, a, id, s.refs[r]);
    }
  }

  lemma KeptStable(good: Good, s: State, store: Store)
    requires Sound(s) && HistoryKept(good, s) && s.store <= store
    ensures HistoryKept(good, s.(store := store))
  {
    forall id: CommitId | id < |s.store| ensures GoodHistory(good, s.store, id) <==> GoodHistory(good, store, id) {
      HistoryStable(good, s.store, store, id);
    }
    forall r | r in s.requests ensures GoodRequest(good, store, s.requests[r]) {
      assert GoodRequest(good, s.store, s.requests[r]) && SoundRequest(s.store, s.requests[r]);
    }
    forall p | p in s.checked ensures GoodTips(good, store, s.checked[p]) {
      assert GoodTips(good, s.store, s.checked[p]);
    }
  }

  lemma RequestKept(good: Good, s: State, r: nat, q: Request)
    requires HistoryKept(good, s) && GoodRequest(good, s.store, q)
    ensures HistoryKept(good, s.(requests := s.requests[r := q]))
  {
  }

  lemma BuildKept(env: Env, good: Good, s: State, step: Step)
    requires Sound(s) && HistoryKept(good, s) && step.Build? && StepOwes(env, good, s, step)
    ensures HistoryKept(good, DoBuild(env, s, step))
  {
    if step.r in s.requests && s.requests[step.r].Building? {
      var q := s.requests[step.r];
      assert SoundRequest(s.store, q) && GoodRequest(good, s.store, q);
      RequestKept(good, s, step.r, Finished(false));
      if BuildOutcome(env, BaseTree(s.store, q.base), step.ops, step.allowed, step.cleaning, step.result) && step.result.Ok? {
        var c := CommitOf(step.result.value, q.base, step.meta);
        CommitTreeStores(s.store, c);
        var (store, id) := CommitTree(s.store, c);
        KeptStable(good, s, store);
        BaseTreeIsGood(good, s.store, q.base);
        if q.base.Some? {
          HistoryStable(good, s.store, store, q.base.value);
        }
        GoodChild(good, store, id, q.base);
        RequestKept(good, s.(store := store), step.r, Swapping(q.ref, q.expected, q.base, id));
      }
    }
  }

  lemma BaseTreeIsGood(good: Good, store: Store, base: Option<CommitId>)
    requires GoodBase(good, store, base)
    ensures GoodTree(good, BaseTree(store, base))
  {
    if base.Some? {
      assert Ancestor(store, base.value, base.value);
    }
  }

  lemma CreateKept(good: Good, s: State, ref: string, id: CommitId)
    requires HistoryKept(good, s) && (id < |s.store| ==> GoodHistory(good, s.store, id))
    ensures HistoryKept(good, DoCreate(s, ref, id))
  {
  }

  lemma PushKept(good: Good, s: State, push: nat, ref: string, from: Option<CommitId>, to: Option<CommitId>)
    requires HistoryKept(good, s)
    ensures HistoryKept(good, DoPushUpdate(s, push, ref, from, to))
  {
    if push in s.checked {
      assert GoodTips(good, s.store, s.checked[push]);
    }
  }

  lemma ReadKept(good: Good, s: State, r: nat, ref: string, expected: Expected)
    requires HistoryKept(good, s)
    ensures HistoryKept(good, DoRead(s, r, ref, expected))
  {
    if ref in s.refs {
      assert GoodHistory(good, s.store, s.refs[ref]);
    }
  }

  lemma SwapKept(good: Good, s: State, r: nat)
    requires HistoryKept(good, s)
    ensures HistoryKept(good, DoSwap(s, r))
  {
    if r in s.requests {
      assert GoodRequest(good, s.store, s.requests[r]);
    }
  }

  lemma DeleteKept(good: Good, s: State, r: nat)
    requires HistoryKept(good, s)
    ensures HistoryKept(good, DoDeleteSwap(s, r))
  {
  }

  lemma HookKept(env: Env, good: Good, s: State, push: nat, tip: CommitId)
    requires HistoryKept(good, s) && (HookAccepts(env, s.store, s.refs, tip) ==> GoodHistory(good, s.store, tip))
    ensures HistoryKept(good, DoHookCheck(env, s, push, tip))
  {
    if HookAccepts(env, s.store, s.refs, tip) {
      assert GoodTips(good, s.store, Checked(s, push));
      assert GoodTips(good, s.store, Checked(s, push) + {tip});
    }
  }

  lemma DeleteReadKept(env: Env, good: Good, s: State, r: nat, ref: string, expected: Expected)
    requires HistoryKept(good, s)
    ensures HistoryKept(good, DoDeleteRead(env, s, r, ref, expected))
  {
  }

  lemma ReceiveKept(good: Good, s: State, commit: Commit)
    requires Sound(s) && HistoryKept(good, s)
    ensures HistoryKept(good, DoReceive(s, commit))
  {
    DoReceiveSound(s, commit);
    KeptStable(good, s, DoReceive(s, commit).store);
  }

  lemma StepKept(env: Env, good: Good, s: State, step: Step)
    requires Sound(s) && HistoryKept(good, s) && StepOwes(env, good, s, step)
    ensures HistoryKept(good, Do(env, s, step))
  {
    match step
    case Build(_, _, _, _, _, _) => BuildKept(env, good, s, step);
    case Receive(commit) => ReceiveKept(good, s, commit);
    case Create(ref, id) => CreateKept(good, s, ref, id);
    case HookCheck(push, tip) => HookKept(env, good, s, push, tip);
    case PushUpdate(push, ref, from, to) => PushKept(good, s, push, ref, from, to);
    case ReadHead(r, ref, expected) => ReadKept(good, s, r, ref, expected);
    case Swap(r) => SwapKept(good, s, r);
    case DeleteRead(r, ref, expected) => DeleteReadKept(env, good, s, r, ref, expected);
    case DeleteSwap(r) => DeleteKept(good, s, r);
  }

  /** If every step does what it owes, every entry of every reachable commit stays good. */
  lemma {:induction false} RunKept(env: Env, good: Good, s: State, steps: seq<Step>)
    requires AtRest(s) && GoodRefs(good, s.store, s.refs) && RunOwes(env, good, s, steps)
    ensures HistoryKept(good, Run(env, s, steps))
    ensures forall a: CommitId :: a < |Run(env, s, steps).store| && Reachable(Run(env, s, steps).store, Run(env, s, steps).refs, a) ==>
              GoodTree(good, Run(env, s, steps).store[a].tree)
  {
    var final := Run(env, s, steps);
    if steps != [] {
      var init := steps[..|steps| - 1];
      forall k | 0 <= k < |init| ensures StepOwes(env, good, Run(env, s, init[..k]), init[k]) {
        assert init[..k] == steps[..k];
      }
      RunKept(env, good, s, init);
      RunSound(env, s, init);
      assert StepOwes(env, good, Run(env, s, steps[..|steps| - 1]), steps[|steps| - 1]);
      StepKept(env, good, Run(env, s, init), steps[|steps| - 1]);
    }
    forall a: CommitId | a < |final.store| && Reachable(final.store, final.refs, a) ensures GoodTree(good, final.store[a].tree) {
      ReachableIsGood(good, final, a);
      assert Ancestor(final.store, a, a);
    }
  }
}
