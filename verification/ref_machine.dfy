/**
 * Everything that changes a repository's refs, as interleaved steps: API commits (read the
 * head, build, swap), branch creation, branch deletion (read, swap) and pushes (receive,
 * hook check, update one ref at a time).
 */
module RefMachine {
  import opened Results
  import opened GitIndex
  import opened CommitOps
  import opened Staging
  import opened Replay
  import opened CommitGraph

  /** What never changes: blob sizes by id, the size limit, the refused paths and the ref HEAD points at. */
  datatype Env = Env(size: string -> nat, threshold: nat, refused: string -> bool, head: string)

  /** The expected head of a request: not given, the zero id, or a commit. */
  datatype Expected = Omitted | Unborn | At(id: CommitId)

  datatype Request =
    | Building(ref: string, expected: Expected, base: Option<CommitId>)
    | Swapping(ref: string, expected: Expected, base: Option<CommitId>, commit: CommitId)
    | Finished(ok: bool)

  datatype Deletion = Deleting(ref: string, base: CommitId) | Ended(ok: bool)

  /** A success: what the caller is told, and the value the ref had just before. */
  datatype Event =
    | Committed(request: nat, ref: string, expected: Expected, before: Option<CommitId>, commit: CommitId)
    | Created(ref: string, commit: CommitId)
    | Deleted(ref: string, reported: CommitId, removed: CommitId)

  datatype State = State(
    store: Store,
    refs: Refs,
    requests: map<nat, Request>,
    deletions: map<nat, Deletion>,
    checked: map<nat, set<CommitId>>,
    log: seq<Event>)

  /** Who commits when, and why. */
  datatype Meta = Meta(author: string, committer: string, date: int, message: string)

  datatype Step =
    | ReadHead(r: nat, ref: string, expected: Expected)
    | Build(r: nat, ops: seq<CommitOp>, allowed: CheckWrite, cleaning: Cleaning, result: Result<Index>, meta: Meta)
    | Swap(r: nat)
    | Create(ref: string, id: CommitId)
    | DeleteRead(r: nat, ref: string, expected: Expected)
    | DeleteSwap(r: nat)
    | Receive(commit: Commit)
    | HookCheck(push: nat, tip: CommitId)
    | PushUpdate(push: nat, ref: string, from: Option<CommitId>, to: Option<CommitId>)

  /** The head check of ApplyCommit; an unborn branch reads as None. */
  function HeadCheck(refs: Refs, ref: string, expected: Expected): (r: Result<Option<CommitId>>)
    ensures r.Ok? <==> if ref in refs then expected == Omitted || expected == At(refs[ref]) else expected == Unborn
    ensures r.Ok? ==> r.value == Lookup(refs, ref)
    ensures r.Err? ==> r.error == if ref in refs then HeadMismatch else RevNotFound
  {
    match Lookup(refs, ref)
    case None => if expected.Unborn? then Ok(None) else Err(RevNotFound)
    case Some(id) => if expected.Unborn? || (expected.At? && expected.id != id) then Err(HeadMismatch) else Ok(Some(id))
  }

  function BaseTree(store: Store, base: Option<CommitId>): Index {
    if base.Some? && base.value < |store| then store[base.value].tree else map[]
  }

  function ParentsOf(base: Option<CommitId>): seq<CommitId> {
    if base.Some? then [base.value] else []
  }

  function CommitOf(tree: Index, base: Option<CommitId>, meta: Meta): Commit {
    Commit(tree, ParentsOf(base), meta.author, meta.committer, meta.date, meta.message)
  }

  /** A build either fails or passes the size check on its puts and yields what staging yields. */
  ghost predicate BuildOutcome(env: Env, tree: Index, ops: seq<CommitOp>, allowed: CheckWrite, c: Cleaning, result: Result<Index>) {
    result.Err? ||
    (ValidOps(ops) && (forall op :: op in ops && op.IsPut() ==> env.size(op.blobSHA) < env.threshold) &&
     Builds(tree, ops, allowed, c, result))
  }

  /** The hook's size check on a tip: every blob it brings is below the limit. */
  ghost predicate HookAcceptsSizes(env: Env, store: Store, refs: Refs, tip: CommitId) {
    tip < |store| &&
    forall a: CommitId, p :: Ancestor(store, a, tip) && a < |store| && p in store[a].tree ==>
      env.size(store[a].tree[p].sha) < env.threshold || KnownBlob(store, refs, store[a].tree[p].sha)
  }

  /** The hook's path check on a tip: no commit it brings lists a refused path. */
  ghost predicate HookAcceptsPaths(env: Env, store: Store, refs: Refs, tip: CommitId) {
    tip < |store| &&
    forall c: CommitId, p :: c < |store| && Ancestor(store, c, tip) && !Reachable(store, refs, c) && env.refused(p) ==> !Listed(store, c, p)
  }

  ghost predicate HookAccepts(env: Env, store: Store, refs: Refs, tip: CommitId) {
    HookAcceptsSizes(env, store, refs, tip) && HookAcceptsPaths(env, store, refs, tip)
  }

  ghost predicate KnownBlob(store: Store, refs: Refs, sha: string) {
    exists a: CommitId, p :: a < |store| && Reachable(store, refs, a) && p in store[a].tree && store[a].tree[p].sha == sha
  }

  ghost function DoBuild(env: Env, s: State, step: Step): State
    requires step.Build?
  {
    if step.r !in s.requests || !s.requests[step.r].Building? then s
    else
      var q := s.requests[step.r];
      var tree := BaseTree(s.store, q.base);
      if BuildOutcome(env, tree, step.ops, step.allowed, step.cleaning, step.result) && step.result.Ok? &&
         (q.base.Some? ==> step.result.value != tree)
      then
        var (store, id) := CommitTree(s.store, CommitOf(step.result.value, q.base, step.meta));
        s.(store := store, requests := s.requests[step.r := Swapping(q.ref, q.expected, q.base, id)])
      else
        s.(requests := s.requests[step.r := Finished(false)])
  }

  function DoSwap(s: State, r: nat): State {
    if r !in s.requests || !s.requests[r].Swapping? then s
    else
      var q := s.requests[r];
      match UpdateRef(s.refs, q.ref, q.commit, q.base)
      case None => s.(requests := s.requests[r := Finished(false)])
      case Some(refs) =>
        s.(refs := refs, requests := s.requests[r := Finished(true)],
           log := s.log + [Committed(r, q.ref, q.expected, Lookup(s.refs, q.ref), q.commit)])
  }

  function DoDeleteRead(env: Env, s: State, r: nat, ref: string, expected: Expected): State {
    if r in s.deletions then s
    else if ref !in s.refs || env.head == ref || expected.Unborn? || (expected.At? && expected.id != s.refs[ref]) then
      s.(deletions := s.deletions[r := Ended(false)])
    else
      s.(deletions := s.deletions[r := Deleting(ref, s.refs[ref])])
  }

  function DoDeleteSwap(s: State, r: nat): State {
    if r !in s.deletions || !s.deletions[r].Deleting? then s
    else
      var d := s.deletions[r];
      match DeleteRef(s.refs, d.ref, d.base)
      case None => s.(deletions := s.deletions[r := Ended(false)])
      case Some(refs) =>
        s.(refs := refs, deletions := s.deletions[r := Ended(true)], log := s.log + [Deleted(d.ref, d.base, s.refs[d.ref])])
  }

  function Checked(s: State, push: nat): set<CommitId> {
    if push in s.checked then s.checked[push] else {}
  }

  function DoRead(s: State, r: nat, ref: string, expected: Expected): State {
    if r in s.requests then s
    else
      var base := HeadCheck(s.refs, ref, expected);
      s.(requests := s.requests[r := if base.Ok? then Building(ref, expected, base.value) else Finished(false)])
  }

  /** CreateBranch: the commit exists, and update-ref from the zero id is not refused. */
  function DoCreate(s: State, ref: string, id: CommitId): State {
    var refs := UpdateRef(s.refs, ref, id, None);
    if id >= |s.store| || refs.None? then s else s.(refs := refs.value, log := s.log + [Created(ref, id)])
  }

  /** Objects of a push become known, whatever they hold. */
  ghost function DoReceive(s: State, commit: Commit): State {
    if PrefixFree(commit.tree) && forall j :: 0 <= j < |commit.parents| ==> commit.parents[j] < |s.store|
    then s.(store := CommitTree(s.store, commit).0)
    else s
  }

  ghost function DoHookCheck(env: Env, s: State, push: nat, tip: CommitId): State {
    if HookAccepts(env, s.store, s.refs, tip) then s.(checked := s.checked[push := Checked(s, push) + {tip}]) else s
  }

  /** receive-pack moves one ref from the value the client saw to a tip the hook accepted. */
  function DoPushUpdate(s: State, push: nat, ref: string, from: Option<CommitId>, to: Option<CommitId>): State {
    if Lookup(s.refs, ref) != from then s
    else if to.None? then s.(refs := s.refs - {ref})
    else if to.value in Checked(s, push) && to.value < |s.store| && (from.Some? || !Collides(s.refs, ref))
    then s.(refs := s.refs[ref := to.value])
    else s
  }

  ghost function Do(env: Env, s: State, step: Step): State {
    match step
    case ReadHead(r, ref, expected) => DoRead(s, r, ref, expected)
    case Build(_, _, _, _, _, _) => DoBuild(env, s, step)
    case Swap(r) => DoSwap(s, r)
    case Create(ref, id) => DoCreate(s, ref, id)
    case DeleteRead(r, ref, expected) => DoDeleteRead(env, s, r, ref, expected)
    case DeleteSwap(r) => DoDeleteSwap(s, r)
    case Receive(commit) => DoReceive(s, commit)
    case HookCheck(push, tip) => DoHookCheck(env, s, push, tip)
    case PushUpdate(push, ref, from, to) => DoPushUpdate(s, push, ref, from, to)
  }

  ghost function Run(env: Env, s: State, steps: seq<Step>): State {
    if steps == [] then s
    else Do(env, Run(env, s, steps[..|steps| - 1]), steps[|steps| - 1])
  }

  /** A repository at rest: nothing in flight, nothing logged. */
  ghost predicate AtRest(s: State) {
    ValidStore(s.store) && ValidRefs(s.store, s.refs) && s.requests == map[] && s.deletions == map[] && s.checked == map[] && s.log == []
  }

  /** What is known of a request in flight, from the head check and the build on. */
  ghost predicate SoundRequest(store: Store, q: Request) {
    (!q.Finished? ==>
      (q.base.Some? ==> q.base.value < |store|) &&
      (q.expected.At? ==> q.base == Some(q.expected.id)) &&
      (q.expected.Unborn? ==> q.base == None)) &&
    (q.Swapping? ==> q.commit < |store| && store[q.commit].parents == ParentsOf(q.base))
  }

  /** What every step keeps, whatever the step. */
  ghost predicate Sound(s: State) {
    ValidStore(s.store) && ValidRefs(s.store, s.refs) &&
    forall r :: r in s.requests ==> SoundRequest(s.store, s.requests[r])
  }

  lemma DoBuildSound(env: Env, s: State, step: Step)
    requires Sound(s) && step.Build?
    ensures Sound(DoBuild(env, s, step)) && s.store <= DoBuild(env, s, step).store
    ensures DoBuild(env, s, step).refs == s.refs && DoBuild(env, s, step).log == s.log
  {
    if step.r in s.requests && s.requests[step.r].Building? {
      var q := s.requests[step.r];
      assert SoundRequest(s.store, q);
      RequestSound(s, s.store, step.r, Finished(false));
      if BuildOutcome(env, BaseTree(s.store, q.base), step.ops, step.allowed, step.cleaning, step.result) && step.result.Ok? {
        var c := CommitOf(step.result.value, q.base, step.meta);
        CommitTreeStores(s.store, c);
        var (store, id) := CommitTree(s.store, c);
        RequestSound(s, store, step.r, Swapping(q.ref, q.expected, q.base, id));
      }
    }
  }

  /** A larger store and a sound request keep the state sound. */
  lemma RequestSound(s: State, store: Store, r: nat, q: Request)
    requires Sound(s) && ValidStore(store) && s.store <= store && SoundRequest(store, q)
    ensures Sound(s.(store := store, requests := s.requests[r := q]))
  {
    forall k | k in s.requests ensures SoundRequest(store, s.requests[k]) {
      assert SoundRequest(s.store, s.requests[k]);
    }
  }

  lemma DoReceiveSound(s: State, commit: Commit)
    requires Sound(s)
    ensures Sound(DoReceive(s, commit)) && s.store <= DoReceive(s, commit).store
  {
  }

  lemma DoReadSound(s: State, r: nat, ref: string, expected: Expected)
    requires Sound(s)
    ensures Sound(DoRead(s, r, ref, expected))
  {
  }

  lemma DoSwapSound(s: State, r: nat)
    requires Sound(s)
    ensures Sound(DoSwap(s, r)) && DoSwap(s, r).store == s.store
  {
    if r in s.requests {
      assert SoundRequest(s.store, s.requests[r]);
    }
  }

  lemma DoSound(env: Env, s: State, step: Step)
    requires Sound(s)
    ensures Sound(Do(env, s, step)) && s.store <= Do(env, s, step).store
  {
    match step
    case ReadHead(r, ref, expected) => DoReadSound(s, r, ref, expected);
    case Build(_, _, _, _, _, _) => DoBuildSound(env, s, step);
    case Swap(r) => DoSwapSound(s, r);
    case Receive(commit) => DoReceiveSound(s, commit);
    case _ =>
      assert Do(env, s, step).store == s.store && Do(env, s, step).requests == s.requests;
  }

  lemma {:induction false} RunSound(env: Env, s: State, steps: seq<Step>)
    requires Sound(s)
    ensures Sound(Run(env, s, steps)) && s.store <= Run(env, s, steps).store
  {
    if steps != [] {
      RunSound(env, s, steps[..|steps| - 1]);
      DoSound(env, Run(env, s, steps[..|steps| - 1]), steps[|steps| - 1]);
    }
  }

  // --------------------------------------------------------- no lost commits

  predicate CommitOrCreate(step: Step) {
    step.ReadHead? || step.Build? || step.Swap? || step.Create?
  }

  /** A logged commit and what it says of the pin of its request. */
  ghost predicate SoundEvent(s: State, e: Event) {
    e.Committed? ==>
      e.ref in s.refs && e.commit < |s.store| &&
      Ancestor(s.store, e.commit, s.refs[e.ref]) &&
      s.store[e.commit].parents == ParentsOf(e.before) &&
      (e.expected.At? ==> e.before == Some(e.expected.id)) &&
      (e.expected.Unborn? ==> e.before == None)
  }

  /** Successes on one branch, in log order, each build on the one before. */
  ghost predicate Chained(s: State, e: Event, later: Event) {
    e.Committed? && later.Committed? && e.ref == later.ref ==>
      later.before.Some? && Ancestor(s.store, e.commit, later.before.value)
  }

  ghost predicate NothingLost(s: State) {
    (forall i :: 0 <= i < |s.log| ==> SoundEvent(s, s.log[i])) &&
    (forall i, j :: 0 <= i < j < |s.log| ==> Chained(s, s.log[i], s.log[j]))
  }

  lemma EventStable(s: State, s': State, e: Event)
    requires Sound(s) && SoundEvent(s, e) && s.store <= s'.store
    requires e.Committed? ==> e.ref in s'.refs && s'.refs[e.ref] < |s'.store| && Ancestor(s'.store, s.refs[e.ref], s'.refs[e.ref])
    ensures SoundEvent(s', e)
  {
    if e.Committed? {
      AncestorStable(s.store, s'.store, e.commit, s.refs[e.ref]);
      AncestorTransitive(s'.store, e.commit, s.refs[e.ref], s'.refs[e.ref]);
    }
  }

  /** A swap moves its branch from the parent of the new commit to the new commit. */
  lemma SwapAdvances(env: Env, s: State, r: nat)
    requires Sound(s)
    ensures var s' := DoSwap(s, r);
            s'.store == s.store && s'.requests.Keys == s.requests.Keys &&
            (s'.log == s.log ==> s'.refs == s.refs) &&
            (s'.log != s.log ==>
              r in s.requests && s.requests[r].Swapping? &&
              var q := s.requests[r];
              q.base == Lookup(s.refs, q.ref) && s'.refs == s.refs[q.ref := q.commit] &&
              s'.log == s.log + [Committed(r, q.ref, q.expected, q.base, q.commit)] &&
              (q.base.Some? ==> Ancestor(s.store, q.base.value, q.commit)))
  {
    var s' := DoSwap(s, r);
    if s'.log != s.log {
      var q := s.requests[r];
      if q.base.Some? {
        assert s.store[q.commit].parents[0] == q.base.value;
        assert Ancestor(s.store, q.base.value, s.store[q.commit].parents[0]);
      }
    }
  }

  lemma SwapLosesNothing(env: Env, s: State, r: nat)
    requires Sound(s) && NothingLost(s)
    ensures NothingLost(DoSwap(s, r))
  {
    var s' := DoSwap(s, r);
    SwapAdvances(env, s, r);
    if s'.log != s.log {
      var q := s.requests[r];
      forall i | 0 <= i < |s.log| ensures SoundEvent(s', s.log[i]) && Chained(s', s.log[i], s'.log[|s.log|]) {
        EventStable(s, s', s.log[i]);
      }
      assert SoundEvent(s', s'.log[|s.log|]);
      forall i, j | 0 <= i < j < |s'.log| ensures Chained(s', s'.log[i], s'.log[j]) {
        if j < |s.log| {
          assert Chained(s, s.log[i], s.log[j]);
        }
      }
    }
  }

  lemma StepLosesNothing(env: Env, s: State, step: Step)
    requires Sound(s) && NothingLost(s) && CommitOrCreate(step)
    ensures NothingLost(Do(env, s, step))
  {
    DoSound(env, s, step);
    match step
    case Swap(r) => SwapLosesNothing(env, s, r);
    case Build(_, _, _, _, _, _) =>
      DoBuildSound(env, s, step);
      NothingLostStable(s, DoBuild(env, s, step));
    case Create(ref, id) => NothingLostStable(s, DoCreate(s, ref, id));
    case ReadHead(r, ref, expected) => NothingLostStable(s, DoRead(s, r, ref, expected));
  }

  /** Refs that are there stay, and at most a creation is logged. */
  lemma NothingLostStable(s: State, s': State)
    requires Sound(s) && Sound(s') && NothingLost(s) && s.store <= s'.store
    requires s.log <= s'.log && |s'.log| <= |s.log| + 1 && (|s'.log| > |s.log| ==> s'.log[|s.log|].Created?)
    requires forall r :: r in s.refs ==> r in s'.refs && s'.refs[r] == s.refs[r]
    ensures NothingLost(s')
  {
    forall i | 0 <= i < |s.log| ensures SoundEvent(s', s.log[i]) {
      EventStable(s, s', s.log[i]);
    }
    forall i, j | 0 <= i < j < |s'.log| ensures Chained(s', s'.log[i], s'.log[j]) {
      if j < |s.log| {
        ChainStable(s, s', s.log[i], s.log[j]);
      }
    }
  }

  lemma ChainStable(s: State, s': State, e: Event, later: Event)
    requires Sound(s) && SoundEvent(s, later) && Chained(s, e, later) && s.store <= s'.store
    ensures Chained(s', e, later)
  {
    if e.Committed? && later.Committed? && e.ref == later.ref {
      assert s.store[later.commit].parents[0] == later.before.value;
      AncestorStable(s.store, s'.store, e.commit, later.before.value);
    }
  }

  lemma {:induction false} RunLosesNothing(env: Env, s: State, steps: seq<Step>)
    requires AtRest(s) && forall i :: 0 <= i < |steps| ==> CommitOrCreate(steps[i])
    ensures Sound(Run(env, s, steps)) && NothingLost(Run(env, s, steps))
  {
    RunSound(env, s, steps);
    if steps != [] {
      var init := steps[..|steps| - 1];
      RunLosesNothing(env, s, init);
      StepLosesNothing(env, Run(env, s, init), steps[|steps| - 1]);
    }
  }

  /**
   * No lost commits: in every interleaving of commits and branch creations, whether or not a
   * head was expected, each successful commit has as parents exactly the value of its branch
   * just before the swap, and it stays an ancestor of the branch head.
   */
  lemma NoLostCommits(env: Env, s: State, steps: seq<Step>, i: nat)
    requires AtRest(s) && forall k :: 0 <= k < |steps| ==> CommitOrCreate(steps[k])
    requires i < |Run(env, s, steps).log| && Run(env, s, steps).log[i].Committed?
    ensures var final := Run(env, s, steps);
            var e := final.log[i];
            e.commit < |final.store| && final.store[e.commit].parents == ParentsOf(e.before) &&
            e.ref in final.refs && Ancestor(final.store, e.commit, final.refs[e.ref])
  {
    RunLosesNothing(env, s, steps);
    assert SoundEvent(Run(env, s, steps), Run(env, s, steps).log[i]);
  }

  /**
   * A step that takes a ref away, or moves it to a commit without its history: a deletion that still
   * finds the value it read, or a push to a tip the hook let in that still finds the value it saw.
   */
  ghost predicate RewindStep(s: State, step: Step, ref: string) {
    match step
    case DeleteSwap(r) =>
      r in s.deletions && s.deletions[r].Deleting? && s.deletions[r].ref == ref && Lookup(s.refs, ref) == Some(s.deletions[r].base)
    case PushUpdate(push, pushed, from, to) =>
      pushed == ref && ref in s.refs && Lookup(s.refs, ref) == from &&
      (to.None? || (to.value in Checked(s, push) && to.value < |s.store| && !Ancestor(s.store, s.refs[ref], to.value)))
    case ReadHead(_, _, _) => false
    case Build(_, _, _, _, _, _) => false
    case Swap(_) => false
    case Create(_, _) => false
    case DeleteRead(_, _, _) => false
    case Receive(_) => false
    case HookCheck(_, _) => false
  }

  /** A head that is not rewound stays or moves to a known commit that has the old head. */
  ghost predicate HeadAdvances(s: State, s': State, ref: string) {
    ref in s.refs && ref in s'.refs &&
    (s'.refs[ref] == s.refs[ref] || (s'.refs[ref] < |s.store| && Ancestor(s.store, s.refs[ref], s'.refs[ref])))
  }

  lemma SwapHead(env: Env, s: State, r: nat, ref: string)
    requires Sound(s) && ref in s.refs
    ensures HeadAdvances(s, DoSwap(s, r), ref)
  {
    SwapAdvances(env, s, r);
    if r in s.requests {
      assert SoundRequest(s.store, s.requests[r]);
    }
  }

  lemma PushHead(s: State, push: nat, pushed: string, from: Option<CommitId>, to: Option<CommitId>, ref: string)
    requires ref in s.refs && !RewindStep(s, PushUpdate(push, pushed, from, to), ref)
    ensures HeadAdvances(s, DoPushUpdate(s, push, pushed, from, to), ref)
  {
  }

  lemma DeleteHead(s: State, r: nat, ref: string)
    requires ref in s.refs && !RewindStep(s, DeleteSwap(r), ref)
    ensures HeadAdvances(s, DoDeleteSwap(s, r), ref)
  {
  }

  lemma CreateHead(s: State, name: string, id: CommitId, ref: string)
    requires ref in s.refs
    ensures HeadAdvances(s, DoCreate(s, name, id), ref)
  {
  }

  lemma HeadMoved(env: Env, s: State, step: Step, ref: string)
    requires Sound(s) && !RewindStep(s, step, ref) && ref in s.refs
    ensures HeadAdvances(s, Do(env, s, step), ref)
  {
    match step
    case Swap(r) => SwapHead(env, s, r, ref);
    case PushUpdate(push, pushed, from, to) => PushHead(s, push, pushed, from, to, ref);
    case DeleteSwap(r) => DeleteHead(s, r, ref);
    case Create(name, id) => CreateHead(s, name, id, ref);
    case Build(_, _, _, _, _, _) => DoBuildSound(env, s, step);
    case ReadHead(_, _, _) => assert Do(env, s, step).refs == s.refs;
    case DeleteRead(_, _, _) => assert Do(env, s, step).refs == s.refs;
    case Receive(_) => assert Do(env, s, step).refs == s.refs;
    case HookCheck(_, _) => assert Do(env, s, step).refs == s.refs;
  }

  /** Every other step keeps all that a ref has. */
  lemma StepKeepsHead(env: Env, s: State, step: Step, ref: string, c: CommitId)
    requires Sound(s) && !RewindStep(s, step, ref) && ref in s.refs && Ancestor(s.store, c, s.refs[ref])
    ensures ref in Do(env, s, step).refs && Ancestor(Do(env, s, step).store, c, Do(env, s, step).refs[ref])
  {
    DoSound(env, s, step);
    HeadMoved(env, s, step, ref);
    HeadKeeps(s.store, Do(env, s, step).store, c, s.refs[ref], Do(env, s, step).refs[ref]);
  }

  lemma HeadKeeps(store: Store, more: Store, c: CommitId, head: CommitId, newHead: CommitId)
    requires store <= more && head < |store| && Ancestor(store, c, head)
    requires newHead == head || (newHead < |store| && Ancestor(store, head, newHead))
    ensures Ancestor(more, c, newHead)
  {
    if newHead != head {
      AncestorTransitive(store, c, head, newHead);
    }
    AncestorStable(store, more, c, newHead);
  }

  /** These steps are exactly the ones after which the old head is no longer in the branch. */
  lemma RewindsExactly(env: Env, s: State, step: Step, ref: string)
    requires Sound(s) && ref in s.refs
    ensures RewindStep(s, step, ref) <==>
            !(ref in Do(env, s, step).refs && Ancestor(Do(env, s, step).store, s.refs[ref], Do(env, s, step).refs[ref]))
  {
    if !RewindStep(s, step, ref) {
      assert Ancestor(s.store, s.refs[ref], s.refs[ref]);
      StepKeepsHead(env, s, step, ref, s.refs[ref]);
    } else if step.PushUpdate? {
      assert Do(env, s, step) == DoPushUpdate(s, step.push, step.ref, step.from, step.to);
    } else {
      assert Do(env, s, step) == DoDeleteSwap(s, step.r);
    }
  }

  lemma {:induction false} RunKeepsHead(env: Env, s: State, steps: seq<Step>, ref: string, c: CommitId)
    requires Sound(s) && ref in s.refs && Ancestor(s.store, c, s.refs[ref])
    requires forall k :: 0 <= k < |steps| ==> !RewindStep(Run(env, s, steps[..k]), steps[k], ref)
    ensures var s' := Run(env, s, steps); ref in s'.refs && Ancestor(s'.store, c, s'.refs[ref])
  {
    if steps != [] {
      var init := steps[..|steps| - 1];
      forall k | 0 <= k < |init| ensures !RewindStep(Run(env, s, init[..k]), init[k], ref) {
        assert init[..k] == steps[..k];
      }
      RunKeepsHead(env, s, init, ref, c);
      RunSound(env, s, init);
      assert !RewindStep(Run(env, s, steps[..|steps| - 1]), steps[|steps| - 1], ref);
      StepKeepsHead(env, Run(env, s, init), steps[|steps| - 1], ref, c);
    }
  }

  /**
   * No lost commits among all steps, deletions and pushes included: a commit that has just
   * succeeded has as parents exactly the value its branch had, and it stays an ancestor of the
   * head until some step deletes the branch or pushes it back.
   */
  lemma CommitStaysUntilRewound(env: Env, s: State, before: seq<Step>, r: nat, after: seq<Step>)
    requires AtRest(s)
    requires var was := Run(env, s, before); |DoSwap(was, r).log| > |was.log|
    requires var was := Run(env, s, before);
             var now := DoSwap(was, r);
             forall k :: 0 <= k < |after| ==> !RewindStep(Run(env, now, after[..k]), after[k], now.log[|was.log|].ref)
    ensures var was := Run(env, s, before);
            var now := DoSwap(was, r);
            var e := now.log[|was.log|];
            var final := Run(env, now, after);
            e.Committed? && e.before == Lookup(was.refs, e.ref) && e.commit < |final.store| &&
            final.store[e.commit].parents == ParentsOf(e.before) &&
            e.ref in final.refs && Ancestor(final.store, e.commit, final.refs[e.ref])
  {
    RunSound(env, s, before);
    var was := Run(env, s, before);
    var now := DoSwap(was, r);
    SwapAdvances(env, was, r);
    assert SoundRequest(was.store, was.requests[r]);
    DoSwapSound(was, r);
    var e := now.log[|was.log|];
    assert now.refs[e.ref] == e.commit;
    RunSound(env, now, after);
    RunKeepsHead(env, now, after, e.ref, e.commit);
  }

  /** Of several requests pinned to the same head of a branch, at most one succeeds. */
  lemma OnePinnedSuccess(env: Env, s: State, steps: seq<Step>, i: nat, j: nat)
    requires AtRest(s) && forall k :: 0 <= k < |steps| ==> CommitOrCreate(steps[k])
    requires var log := Run(env, s, steps).log;
             i < |log| && j < |log| && log[i].Committed? && log[j].Committed? &&
             log[i].ref == log[j].ref && log[i].expected == log[j].expected && !log[i].expected.Omitted?
    ensures i == j
  {
    RunLosesNothing(env, s, steps);
    if i < j {
      PinnedOnce(Run(env, s, steps), i, j);
    } else if j < i {
      PinnedOnce(Run(env, s, steps), j, i);
    }
  }

  lemma PinnedOnce(s: State, i: nat, j: nat)
    requires Sound(s) && NothingLost(s) && i < j < |s.log|
    requires s.log[i].Committed? && s.log[j].Committed? && s.log[i].ref == s.log[j].ref
    requires s.log[i].expected == s.log[j].expected
    ensures s.log[i].expected.Omitted?
  {
    var e, later := s.log[i], s.log[j];
    assert SoundEvent(s, e) && SoundEvent(s, later) && Chained(s, e, later);
    assert e.expected.At? ==> s.store[e.commit].parents[0] < e.commit;
    AncestorIsOlder(s.store, e.commit, later.before.value);
  }

  /**
   * Pinned requests among all steps: as long as no step deletes the branch or pushes it back, a
   * later success on it is pinned to another head than an earlier one.
   */
  lemma PinnedOnceUntilRewound(env: Env, s: State, before: seq<Step>, r: nat, after: seq<Step>, r': nat)
    requires AtRest(s)
    requires var was := Run(env, s, before); |DoSwap(was, r).log| > |was.log|
    requires var was := Run(env, s, before);
             var now := DoSwap(was, r);
             var later := Run(env, now, after);
             (forall k :: 0 <= k < |after| ==> !RewindStep(Run(env, now, after[..k]), after[k], now.log[|was.log|].ref)) &&
             |DoSwap(later, r').log| > |later.log|
    ensures var was := Run(env, s, before);
            var now := DoSwap(was, r);
            var later := Run(env, now, after);
            var e, e' := now.log[|was.log|], DoSwap(later, r').log[|later.log|];
            e.Committed? && e'.Committed? && (e.ref == e'.ref && !e.expected.Omitted? ==> e.expected != e'.expected)
  {
    CommitStaysUntilRewound(env, s, before, r, after);
    var was := Run(env, s, before);
    var now := DoSwap(was, r);
    var later := Run(env, now, after);
    RunSound(env, s, before);
    DoSwapSound(was, r);
    RunSound(env, now, after);
    SwapAdvances(env, was, r);
    SwapAdvances(env, later, r');
    var e, e' := now.log[|was.log|], DoSwap(later, r').log[|later.log|];
    assert SoundRequest(was.store, was.requests[r]) && SoundRequest(later.store, later.requests[r']);
    if e.ref == e'.ref {
      PinMoved(later.store, e, e', later.refs[e.ref]);
    }
  }

  /** A pin names the head a commit was built on, and that is older than any head holding the commit. */
  lemma PinMoved(store: Store, e: Event, e': Event, head: CommitId)
    requires ValidStore(store) && e.Committed? && e'.Committed? && e'.before == Some(head) && Ancestor(store, e.commit, head)
    requires e.commit < |store| && store[e.commit].parents == ParentsOf(e.before)
    requires (e.expected.At? ==> e.before == Some(e.expected.id)) && (e'.expected.At? ==> e'.before == Some(e'.expected.id))
    requires e'.expected.Unborn? ==> e'.before == None
    ensures !e.expected.Omitted? ==> e.expected != e'.expected
  {
    AncestorIsOlder(store, e.commit, head);
    if e.expected.At? {
      assert store[e.commit].parents[0] == e.expected.id;
    }
  }
}
