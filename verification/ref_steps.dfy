/** What the calls that change refs do when their steps are taken in a row, each spelled out. */
module RefSteps {
  import opened Results
  import opened GitIndex
  import opened CommitGraph
  import opened RefMachine

  // ----------------------------------------------------------- no nested refs

  lemma OneMoreRef(refs: Refs, ref: string, id: CommitId)
    requires FlatRefs(refs) && (ref in refs || !Collides(refs, ref))
    ensures FlatRefs(refs[ref := id])
  {
  }

  lemma StepKeepsFlat(env: Env, s: State, step: Step)
    requires FlatRefs(s.refs)
    ensures FlatRefs(Do(env, s, step).refs)
  {
    match step
    case Swap(r) =>
      if r in s.requests && s.requests[r].Swapping? && !Collides(s.refs, s.requests[r].ref) {
        OneMoreRef(s.refs, s.requests[r].ref, s.requests[r].commit);
      }
    case Create(ref, id) =>
      if !Collides(s.refs, ref) {
        OneMoreRef(s.refs, ref, id);
      }
    case PushUpdate(_, ref, _, to) =>
      if to.Some? && (ref in s.refs || !Collides(s.refs, ref)) {
        OneMoreRef(s.refs, ref, to.value);
      }
    case DeleteSwap(_) =>
    case Build(_, _, _, _, _, _) =>
    case _ => assert Do(env, s, step).refs == s.refs;
  }

  /** In every run, no ref ever becomes a directory of another: commits, creations and pushes included. */
  lemma {:induction false} RefsStayFlat(env: Env, s: State, steps: seq<Step>)
    requires FlatRefs(s.refs)
    ensures forall r, r' :: r in Run(env, s, steps).refs && r' in Run(env, s, steps).refs ==> !(r + "/" <= r')
  {
    RunKeepsFlat(env, s, steps);
  }

  lemma {:induction false} RunKeepsFlat(env: Env, s: State, steps: seq<Step>)
    requires FlatRefs(s.refs)
    ensures FlatRefs(Run(env, s, steps).refs)
  {
    if steps != [] {
      RunKeepsFlat(env, s, steps[..|steps| - 1]);
      StepKeepsFlat(env, Run(env, s, steps[..|steps| - 1]), steps[|steps| - 1]);
    }
  }

  // ---------------------------------------------------------- calls in a row

  /** A creation takes effect exactly for a known commit and a name that is free beside all others. */
  lemma CreateDoes(env: Env, s: State, ref: string, id: CommitId)
    ensures var free := forall other :: other in s.refs ==> other != ref && !(ref + "/" <= other) && !(other + "/" <= ref);
            Do(env, s, Create(ref, id)) ==
            if id < |s.store| && free then s.(refs := s.refs[ref := id], log := s.log + [Created(ref, id)]) else s
  {
  }

  /** A deletion with nobody in between removes the branch exactly when it is there, is not HEAD's and has the expected head. */
  lemma DeleteDoes(env: Env, s: State, r: nat, ref: string, expected: Expected)
    requires r !in s.deletions
    ensures var s' := Do(env, Do(env, s, DeleteRead(r, ref, expected)), DeleteSwap(r));
            var ok := ref in s.refs && ref != env.head && (expected == Omitted || expected == At(s.refs[ref]));
            s' == s.(refs := s'.refs, log := s'.log, deletions := s.deletions[r := Ended(ok)]) &&
            s'.refs == (if ok then s.refs - {ref} else s.refs) &&
            s'.log == if ok then s.log + [Deleted(ref, s.refs[ref], s.refs[ref])] else s.log
  {
  }

  /**
   * A push to one ref with nobody in between moves it exactly when the hook accepts the tip, the
   * ref has the value the client saw, and a new name is free beside all others.
   */
  lemma PushDoes(env: Env, s: State, push: nat, ref: string, from: Option<CommitId>, tip: CommitId)
    requires push !in s.checked
    ensures var s' := Do(env, Do(env, s, HookCheck(push, tip)), PushUpdate(push, ref, from, Some(tip)));
            var seen := if ref in s.refs then from == Some(s.refs[ref])
                        else from == None && forall other :: other in s.refs ==> !(ref + "/" <= other) && !(other + "/" <= ref);
            s'.store == s.store && s'.log == s.log && s'.requests == s.requests && s'.deletions == s.deletions &&
            s'.refs == if HookAccepts(env, s.store, s.refs, tip) && seen then s.refs[ref := tip] else s.refs
  {
  }

  /** A push deletes a ref exactly when it has the value the client saw; the hook lets deletions pass. */
  lemma PushDeletes(env: Env, s: State, push: nat, ref: string, from: Option<CommitId>)
    ensures Do(env, s, PushUpdate(push, ref, from, None)) ==
            if (if ref in s.refs then from == Some(s.refs[ref]) else from == None) then s.(refs := s.refs - {ref}) else s
  {
  }

  /** Received objects move no ref; a commit whose parents are known is stored once. */
  lemma ReceiveDoes(env: Env, s: State, commit: Commit)
    requires ValidStore(s.store)
    ensures var s' := Do(env, s, Receive(commit));
            s' == s.(store := s'.store) && s.store <= s'.store && |s'.store| <= |s.store| + 1 &&
            (PrefixFree(commit.tree) && (forall j :: 0 <= j < |commit.parents| ==> commit.parents[j] < |s.store|) ==>
              exists id :: 0 <= id < |s'.store| && s'.store[id] == commit)
  {
    if PrefixFree(commit.tree) && forall j :: 0 <= j < |commit.parents| ==> commit.parents[j] < |s.store| {
      CommitTreeStores(s.store, commit);
    }
  }

  /** A commit request reads the head: it goes on from it, or from nothing, exactly when that is what it expects. */
  lemma ReadDoes(env: Env, s: State, r: nat, ref: string, expected: Expected)
    requires r !in s.requests
    ensures var head := if ref in s.refs then Some(s.refs[ref]) else None;
            var ok := if ref in s.refs then expected == Omitted || expected == At(s.refs[ref]) else expected == Unborn;
            Do(env, s, ReadHead(r, ref, expected)) == s.(requests := s.requests[r := if ok then Building(ref, expected, head) else Finished(false)])
  {
  }

  /** It stores a commit of the built tree on what it read exactly when the build passes and the tree is new. */
  lemma BuildDoes(env: Env, s: State, build: Step)
    requires build.Build? && build.r in s.requests && s.requests[build.r].Building?
    requires ValidStore(s.store) && SoundRequest(s.store, s.requests[build.r])
    ensures var q, s' := s.requests[build.r], Do(env, s, build);
            var tree := if q.base.Some? then s.store[q.base.value].tree else map[];
            var ok := build.result.Ok? && BuildOutcome(env, tree, build.ops, build.allowed, build.cleaning, build.result) &&
                      (q.base.Some? ==> build.result.value != tree);
            if !ok then s' == s.(requests := s.requests[build.r := Finished(false)])
            else
              var id := s'.requests[build.r].commit;
              s' == s.(store := s'.store, requests := s.requests[build.r := Swapping(q.ref, q.expected, q.base, id)]) &&
              s.store <= s'.store && |s'.store| <= |s.store| + 1 && id < |s'.store| &&
              s'.store[id] == Commit(build.result.value, if q.base.Some? then [q.base.value] else [],
                                     build.meta.author, build.meta.committer, build.meta.date, build.meta.message)
  {
    if build.result.Ok? && BuildOutcome(env, BaseTree(s.store, s.requests[build.r].base), build.ops, build.allowed, build.cleaning, build.result) {
      CommitTreeStores(s.store, CommitOf(build.result.value, s.requests[build.r].base, build.meta));
    }
  }

  /** It moves the branch exactly when the head is still what it read and a new name is free beside all others. */
  lemma SwapDoes(env: Env, s: State, r: nat)
    requires r in s.requests && s.requests[r].Swapping?
    ensures var q := s.requests[r];
            var ok := if q.ref in s.refs then q.base == Some(s.refs[q.ref])
                      else q.base == None && forall other :: other in s.refs ==> !(q.ref + "/" <= other) && !(other + "/" <= q.ref);
            Do(env, s, Swap(r)) ==
            if !ok then s.(requests := s.requests[r := Finished(false)])
            else s.(refs := s.refs[q.ref := q.commit], requests := s.requests[r := Finished(true)],
                    log := s.log + [Committed(r, q.ref, q.expected, q.base, q.commit)])
  {
  }
}
