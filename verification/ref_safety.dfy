/** Safety of the interleaved ref changes beyond single branches. */
module RefSafety {
  import opened CommitGraph
  import opened RefMachine

  predicate ApiStep(step: Step) {
    !step.PushUpdate?
  }

  // ------------------------------------------------- the log explains the refs

  function ApplyEvent(refs: Refs, e: Event): Refs {
    match e
    case Committed(_, ref, _, _, commit) => refs[ref := commit]
    case Created(ref, commit) => refs[ref := commit]
    case Deleted(ref, _, _) => refs - {ref}
  }

  function ApplyEvents(refs: Refs, log: seq<Event>): Refs {
    if log == [] then refs else ApplyEvent(ApplyEvents(refs, log[..|log| - 1]), log[|log| - 1])
  }

  /** A request is finished successfully exactly when the log holds its one success. */
  ghost predicate LogMatchesRequests(s: State) {
    (forall i :: 0 <= i < |s.log| && s.log[i].Committed? ==>
      s.log[i].request in s.requests && s.requests[s.log[i].request] == Finished(true)) &&
    (forall i, j :: 0 <= i < j < |s.log| && s.log[i].Committed? && s.log[j].Committed? ==> s.log[i].request != s.log[j].request) &&
    (forall r :: r in s.requests && s.requests[r] == Finished(true) ==>
      exists i :: 0 <= i < |s.log| && s.log[i].Committed? && s.log[i].request == r)
  }

  lemma SwapLogs(s: State, r: nat)
    requires LogMatchesRequests(s)
    ensures LogMatchesRequests(DoSwap(s, r))
    ensures var s' := DoSwap(s, r);
            (s'.log == s.log && s'.refs == s.refs) ||
            (|s'.log| == |s.log| + 1 && s.log == s'.log[..|s.log|] && s'.refs == ApplyEvent(s.refs, s'.log[|s.log|]))
  {
    var s' := DoSwap(s, r);
    if s'.log != s.log {
      var q := s.requests[r];
      OneMoreSuccess(s, s', Committed(r, q.ref, q.expected, Lookup(s.refs, q.ref), q.commit));
    }
  }

  lemma OneMoreSuccess(s: State, s': State, e: Event)
    requires LogMatchesRequests(s) && e.Committed? && e.request in s.requests && s.requests[e.request] != Finished(true)
    requires s'.log == s.log + [e] && s'.requests == s.requests[e.request := Finished(true)]
    ensures LogMatchesRequests(s')
  {
    assert s'.log[|s.log|] == e;
    forall k | k in s'.requests && s'.requests[k] == Finished(true)
      ensures exists i :: 0 <= i < |s'.log| && s'.log[i].Committed? && s'.log[i].request == k
    {
      if k != e.request {
        var i :| 0 <= i < |s.log| && s.log[i].Committed? && s.log[i].request == k;
        assert s'.log[i] == s.log[i];
      }
    }
  }

  lemma DoLogs(env: Env, s: State, step: Step)
    requires LogMatchesRequests(s) && ApiStep(step)
    ensures LogMatchesRequests(Do(env, s, step))
    ensures var s' := Do(env, s, step);
            (s'.log == s.log && s'.refs == s.refs) ||
            (|s'.log| == |s.log| + 1 && s.log == s'.log[..|s.log|] && s'.refs == ApplyEvent(s.refs, s'.log[|s.log|]))
  {
    if step.Swap? {
      SwapLogs(s, step.r);
    } else {
      OtherRequests(env, s, step);
      OtherEvents(env, s, step);
      LogsStable(s, Do(env, s, step));
    }
  }

  lemma OtherEvents(env: Env, s: State, step: Step)
    requires !step.Swap? && ApiStep(step)
    ensures var s' := Do(env, s, step);
            (s'.log == s.log && s'.refs == s.refs) ||
            (|s'.log| == |s.log| + 1 && s.log == s'.log[..|s.log|] && !s'.log[|s.log|].Committed? &&
             s'.refs == ApplyEvent(s.refs, s'.log[|s.log|]))
  {
    if step.Create? {
      CreateEvent(s, step.ref, step.id);
    } else if step.DeleteSwap? {
      DeleteEvent(s, step.r);
    } else {
      assert Do(env, s, step).log == s.log && Do(env, s, step).refs == s.refs;
    }
  }

  lemma CreateEvent(s: State, ref: string, id: CommitId)
    ensures var s' := DoCreate(s, ref, id);
            (s'.log == s.log && s'.refs == s.refs) ||
            (s'.log == s.log + [Created(ref, id)] && s'.refs == ApplyEvent(s.refs, Created(ref, id)))
  {
  }

  lemma DeleteEvent(s: State, r: nat)
    ensures var s' := DoDeleteSwap(s, r);
            (s'.log == s.log && s'.refs == s.refs) ||
            (|s'.log| == |s.log| + 1 && s.log == s'.log[..|s.log|] && s'.log[|s.log|].Deleted? &&
             s'.refs == ApplyEvent(s.refs, s'.log[|s.log|]))
  {
  }

  lemma LogsStable(s: State, s': State)
    requires LogMatchesRequests(s)
    requires s'.log == s.log || (|s'.log| == |s.log| + 1 && s.log == s'.log[..|s.log|] && !s'.log[|s.log|].Committed?)
    requires SameSuccesses(s.requests, s'.requests)
    ensures LogMatchesRequests(s')
  {
  }

  /** Steps other than swaps finish no request successfully. */
  lemma OtherRequests(env: Env, s: State, step: Step)
    requires !step.Swap?
    ensures SameSuccesses(s.requests, Do(env, s, step).requests)
  {
    if step.ReadHead? {
      ReadRequests(s, step.r, step.ref, step.expected);
    } else if step.Build? {
      BuildRequests(env, s, step);
    } else {
      assert Do(env, s, step).requests == s.requests;
    }
  }

  ghost predicate SameSuccesses(before: map<nat, Request>, after: map<nat, Request>) {
    before.Keys <= after.Keys &&
    forall r :: r in after ==> (after[r] == Finished(true) <==> r in before && before[r] == Finished(true))
  }

  lemma ReadRequests(s: State, r: nat, ref: string, expected: Expected)
    ensures SameSuccesses(s.requests, DoRead(s, r, ref, expected).requests)
  {
  }

  lemma BuildRequests(env: Env, s: State, step: Step)
    requires step.Build?
    ensures SameSuccesses(s.requests, DoBuild(env, s, step).requests)
  {
  }

  /**
   * Failures change nothing and successes change one ref: without pushes, the refs after any
   * run are the first refs with the logged successes applied in order, and the requests that
   * end well are exactly those logged, each once.
   */
  lemma {:induction false} LogExplainsRefs(env: Env, s: State, steps: seq<Step>)
    requires AtRest(s) && forall k :: 0 <= k < |steps| ==> ApiStep(steps[k])
    ensures Run(env, s, steps).refs == ApplyEvents(s.refs, Run(env, s, steps).log)
    ensures LogMatchesRequests(Run(env, s, steps))
  {
    if steps != [] {
      var init := steps[..|steps| - 1];
      LogExplainsRefs(env, s, init);
      var before := Run(env, s, init);
      DoLogs(env, before, steps[|steps| - 1]);
    }
  }

  // --------------------------------------------------------- default branch

  /** Deletions in flight never aim at the branch HEAD points at; deletions report the truth. */
  ghost predicate DeletionsSafe(env: Env, s: State) {
    (forall r :: r in s.deletions && s.deletions[r].Deleting? ==> s.deletions[r].ref != env.head) &&
    (forall i :: 0 <= i < |s.log| && s.log[i].Deleted? ==> s.log[i].reported == s.log[i].removed && s.log[i].ref != env.head)
  }

  lemma DeleteReadSafely(env: Env, s: State, r: nat, ref: string, expected: Expected)
    requires DeletionsSafe(env, s)
    ensures DeletionsSafe(env, DoDeleteRead(env, s, r, ref, expected))
  {
  }

  lemma DeleteSwapSafely(env: Env, s: State, r: nat)
    requires DeletionsSafe(env, s)
    ensures DeletionsSafe(env, DoDeleteSwap(s, r))
    ensures env.head in s.refs ==> env.head in DoDeleteSwap(s, r).refs
  {
  }

  lemma DoDeletesSafely(env: Env, s: State, step: Step)
    requires DeletionsSafe(env, s) && ApiStep(step)
    ensures DeletionsSafe(env, Do(env, s, step))
    ensures env.head in s.refs ==> env.head in Do(env, s, step).refs
  {
    if step.DeleteRead? {
      DeleteReadSafely(env, s, step.r, step.ref, step.expected);
    } else if step.DeleteSwap? {
      DeleteSwapSafely(env, s, step.r);
    } else if step.Swap? {
      assert DoSwap(s, step.r).deletions == s.deletions;
    } else if step.Create? {
      assert DoCreate(s, step.ref, step.id).deletions == s.deletions;
    } else {
      assert Do(env, s, step).deletions == s.deletions && Do(env, s, step).log == s.log && Do(env, s, step).refs == s.refs;
    }
  }

  lemma {:induction false} RunDeletesSafely(env: Env, s: State, steps: seq<Step>)
    requires DeletionsSafe(env, s) && forall k :: 0 <= k < |steps| ==> ApiStep(steps[k])
    ensures DeletionsSafe(env, Run(env, s, steps))
    ensures env.head in s.refs ==> env.head in Run(env, s, steps).refs
  {
    if steps != [] {
      RunDeletesSafely(env, s, steps[..|steps| - 1]);
      DoDeletesSafely(env, Run(env, s, steps[..|steps| - 1]), steps[|steps| - 1]);
    }
  }

  lemma {:induction false} RunSplits(env: Env, s: State, a: seq<Step>, b: seq<Step>)
    ensures Run(env, s, a + b) == Run(env, Run(env, s, a), b)
  {
    if b == [] {
      assert a + b == a;
    } else {
      assert (a + b)[..|a + b| - 1] == a + b[..|b| - 1];
      RunSplits(env, s, a, b[..|b| - 1]);
    }
  }

  /**
   * Default branch safety: whatever API steps are interleaved, once the branch HEAD points at
   * exists it is there for good, and every successful delete reports exactly the value it removed.
   */
  lemma DefaultBranchStays(env: Env, s: State, a: seq<Step>, b: seq<Step>)
    requires AtRest(s) && forall k :: 0 <= k < |a + b| ==> ApiStep((a + b)[k])
    requires env.head in Run(env, s, a).refs
    ensures env.head in Run(env, s, a + b).refs
    ensures forall e :: e in Run(env, s, a + b).log && e.Deleted? ==> e.reported == e.removed
  {
    assert forall k :: 0 <= k < |a| ==> a[k] == (a + b)[k];
    assert forall k :: 0 <= k < |b| ==> b[k] == (a + b)[|a| + k];
    RunDeletesSafely(env, s, a);
    RunSplits(env, s, a, b);
    RunDeletesSafely(env, Run(env, s, a), b);
  }
}
