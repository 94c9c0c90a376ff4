/** The pre-receive hook: what it reads of a push, and what an accepted push guarantees. */
module PushHook {
  import opened Results
  import opened PathPolicy
  import opened GitIndex
  import opened CommitOps
  import opened Staging
  import opened Replay
  import opened StagingTheorems
  import opened BlockedPaths
  import opened CommitGraph
  import opened RefMachine

  /** One line of hook input: empty, not three fields, or a new value (None for the zero id). */
  datatype Line = Blank | Garbled | Update(tip: Option<CommitId>)

  datatype Object = Object(id: string, isBlob: bool, size: nat)

  /** What git answers about a tip: rev-list --objects, rev-list, and diff-tree of a commit. */
  datatype GitView = GitView(
    newObjects: CommitId -> seq<Object>,
    newCommits: CommitId -> seq<CommitId>,
    changedPaths: CommitId -> seq<string>)

  datatype Policy = Policy(pattern: string, reason: string)

  datatype Verdict =
    | Accepted
    | MalformedInput
    | TooLarge(id: string)
    | BlockedPath(path: string, pattern: string, reason: string)

  function Patterns(policies: seq<Policy>): seq<string> {
    seq(|policies|, i requires 0 <= i < |policies| => policies[i].pattern)
  }

  /** The reason kept for a pattern: the last one given for it. */
  function ReasonFor(policies: seq<Policy>, pattern: string): string {
    if policies == [] then ""
    else
      var last := policies[|policies| - 1];
      if last.pattern == pattern && last.reason != "" then last.reason
      else ReasonFor(policies[..|policies| - 1], pattern)
  }

  ghost predicate LastReason(policies: seq<Policy>, pattern: string, i: int) {
    0 <= i < |policies| && policies[i].pattern == pattern && policies[i].reason != "" &&
    forall j :: i < j < |policies| ==> !(policies[j].pattern == pattern && policies[j].reason != "")
  }

  /** A pattern without a reason has the empty one; of several reasons the last counts. */
  lemma {:induction false} ReasonIsTheLast(policies: seq<Policy>, pattern: string)
    ensures forall i :: LastReason(policies, pattern, i) ==> ReasonFor(policies, pattern) == policies[i].reason
    ensures ReasonFor(policies, pattern) != "" ==> exists i :: LastReason(policies, pattern, i)
  {
    if policies != [] {
      var init, k := policies[..|policies| - 1], |policies| - 1;
      ReasonIsTheLast(init, pattern);
      if policies[k].pattern == pattern && policies[k].reason != "" {
        assert LastReason(policies, pattern, k);
      } else {
        assert forall i :: LastReason(policies, pattern, i) <==> LastReason(init, pattern, i);
      }
    }
  }

  predicate ObjectsPass(objects: seq<Object>, threshold: nat) {
    forall i :: 0 <= i < |objects| ==> objects[i].isBlob ==> objects[i].size < threshold
  }

  predicate PathsPass(paths: seq<string>, patterns: seq<string>) {
    forall i :: 0 <= i < |paths| ==> paths[i] == "" || !Blocked(patterns, paths[i])
  }

  predicate LinePasses(line: Line, git: GitView, patterns: seq<string>, threshold: nat) {
    match line
    case Blank => true
    case Garbled => false
    case Update(None) => true
    case Update(Some(tip)) =>
      ObjectsPass(git.newObjects(tip), threshold) && CommitsPass(git.newCommits(tip), git, patterns)
  }

  /** The object a size refusal names: the first blob in the listing that has reached the limit. */
  ghost predicate NamesLarge(objects: seq<Object>, threshold: nat, id: string) {
    exists k :: 0 <= k < |objects| && ObjectsPass(objects[..k], threshold) &&
                objects[k].isBlob && objects[k].size >= threshold && objects[k].id == id
  }

  /** The path a refusal names: the first blocked one listed, with its first matching pattern. */
  ghost predicate NamesBlocked(paths: seq<string>, patterns: seq<string>, path: string, pattern: string) {
    (exists k :: 0 <= k < |paths| && PathsPass(paths[..k], patterns) && paths[k] == path) &&
    path != "" && Blocked(patterns, path) &&
    exists k: nat :: FirstMatch(patterns, path, k) && pattern == patterns[k]
  }

  predicate CommitsPass(commits: seq<CommitId>, git: GitView, patterns: seq<string>) {
    forall i :: 0 <= i < |commits| ==> PathsPass(git.changedPaths(commits[i]), patterns)
  }

  /** Why a line is refused, and what the refusal names. */
  ghost predicate Refuses(v: Verdict, line: Line, git: GitView, patterns: seq<string>, threshold: nat) {
    match v
    case Accepted => false
    case MalformedInput => line.Garbled?
    case TooLarge(id) => line.Update? && line.tip.Some? && NamesLarge(git.newObjects(line.tip.value), threshold, id)
    case BlockedPath(path, pattern, _) =>
      line.Update? && line.tip.Some? && ObjectsPass(git.newObjects(line.tip.value), threshold) &&
      var commits := git.newCommits(line.tip.value);
      exists i :: 0 <= i < |commits| && CommitsPass(commits[..i], git, patterns) &&
                  NamesBlocked(git.changedPaths(commits[i]), patterns, path, pattern)
  }

  method CheckObjects(objects: seq<Object>, threshold: nat) returns (v: Verdict)
    ensures v == Accepted <==> ObjectsPass(objects, threshold)
    ensures v != Accepted ==> v.TooLarge? && NamesLarge(objects, threshold, v.id)
  {
    var i := 0;
    while i < |objects|
      invariant 0 <= i <= |objects|
      invariant ObjectsPass(objects[..i], threshold)
    {
      if objects[i].isBlob && objects[i].size >= threshold {
        return TooLarge(objects[i].id);
      }
      i := i + 1;
    }
    assert objects[..i] == objects;
    return Accepted;
  }

  method CheckPaths(paths: seq<string>, patterns: seq<string>, reasons: map<string, string>) returns (v: Verdict)
    ensures v == Accepted <==> PathsPass(paths, patterns)
    ensures v != Accepted ==>
              v.BlockedPath? && NamesBlocked(paths, patterns, v.path, v.pattern) &&
              v.reason == if v.pattern in reasons then reasons[v.pattern] else ""
  {
    var i := 0;
    while i < |paths|
      invariant 0 <= i <= |paths|
      invariant PathsPass(paths[..i], patterns)
    {
      if paths[i] != "" {
        var pattern, blocked := PathPolicy.PathBlocked(patterns, paths[i]);
        if blocked {
          return BlockedPath(paths[i], pattern, if pattern in reasons then reasons[pattern] else "");
        }
      }
      i := i + 1;
    }
    assert paths[..i] == paths;
    return Accepted;
  }

  /** Walks one ref update: its new objects, then the paths of each new commit. */
  method CheckLine(line: Line, git: GitView, patterns: seq<string>, reasons: map<string, string>, threshold: nat) returns (v: Verdict)
    ensures v == Accepted <==> LinePasses(line, git, patterns, threshold)
    ensures v != Accepted ==> Refuses(v, line, git, patterns, threshold)
    ensures v.BlockedPath? ==> v.reason == if v.pattern in reasons then reasons[v.pattern] else ""
  {
    if line.Blank? {
      return Accepted;
    }
    if line.Garbled? {
      return MalformedInput;
    }
    if line.tip.None? {
      return Accepted;
    }
    var tip := line.tip.value;
    v := CheckObjects(git.newObjects(tip), threshold);
    if v != Accepted {
      return v;
    }
    var revs := git.newCommits(tip);
    var i := 0;
    while i < |revs|
      invariant 0 <= i <= |revs|
      invariant v == Accepted
      invariant CommitsPass(revs[..i], git, patterns)
    {
      v := CheckPaths(git.changedPaths(revs[i]), patterns, reasons);
      if v != Accepted {
        return v;
      }
      i := i + 1;
    }
    assert revs[..i] == revs;
  }

  /** The first line that does not pass decides the verdict. */
  method PreReceive(lines: seq<Line>, git: GitView, policies: seq<Policy>, threshold: nat) returns (v: Verdict)
    ensures v == Accepted <==> forall i :: 0 <= i < |lines| ==> LinePasses(lines[i], git, Patterns(policies), threshold)
    ensures v != Accepted ==>
              exists i :: 0 <= i < |lines| && Refuses(v, lines[i], git, Patterns(policies), threshold) &&
                          forall j :: 0 <= j < i ==> LinePasses(lines[j], git, Patterns(policies), threshold)
    ensures v.BlockedPath? ==> v.reason == ReasonFor(policies, v.pattern)
  {
    var patterns: seq<string> := [];
    var reasons: map<string, string> := map[];
    var i := 0;
    while i < |policies|
      invariant 0 <= i <= |policies|
      invariant patterns == Patterns(policies)[..i]
      invariant forall p :: (if p in reasons then reasons[p] else "") == ReasonFor(policies[..i], p)
    {
      assert policies[..i + 1][..i] == policies[..i];
      patterns := patterns + [policies[i].pattern];
      if policies[i].reason != "" {
        reasons := reasons[policies[i].pattern := policies[i].reason];
      }
      i := i + 1;
    }
    assert policies[..i] == policies && patterns == Patterns(policies);
    v := Accepted;
    i := 0;
    while i < |lines|
      invariant 0 <= i <= |lines|
      invariant v == Accepted
      invariant forall j :: 0 <= j < i ==> LinePasses(lines[j], git, patterns, threshold)
    {
      v := CheckLine(lines[i], git, patterns, reasons, threshold);
      if v != Accepted {
        return v;
      }
      i := i + 1;
    }
  }

  /** Nothing of a line is against the rules: no blob has reached the limit, no changed path lies at or below a pattern. */
  ghost predicate LineIsClean(line: Line, git: GitView, policies: seq<Policy>, threshold: nat) {
    line != Garbled &&
    (line.Update? && line.tip.Some? ==>
      (forall o :: o in git.newObjects(line.tip.value) && o.isBlob ==> o.size < threshold) &&
      forall c, p, i :: c in git.newCommits(line.tip.value) && p in git.changedPaths(c) && p != "" && 0 <= i < |policies| ==>
        p != policies[i].pattern && !(policies[i].pattern + "/" <= p))
  }

  /** The hook lets a line pass exactly when nothing of it is against the rules; blank lines and deletions always pass. */
  lemma {:induction false} LinesPassExactly(line: Line, git: GitView, policies: seq<Policy>, threshold: nat)
    ensures LinePasses(line, git, Patterns(policies), threshold) <==> LineIsClean(line, git, policies, threshold)
  {
    if line.Update? && line.tip.Some? {
      var commits := git.newCommits(line.tip.value);
      forall p ensures Blocked(Patterns(policies), p) <==>
                       exists i :: 0 <= i < |policies| && (p == policies[i].pattern || policies[i].pattern + "/" <= p) {
        assert forall i :: 0 <= i < |policies| ==> Patterns(policies)[i] == policies[i].pattern;
      }
      forall c ensures PathsPass(git.changedPaths(c), Patterns(policies)) <==>
                       forall p :: p in git.changedPaths(c) && p != "" ==> !Blocked(Patterns(policies), p) {
      }
      assert forall o :: o in git.newObjects(line.tip.value) <==>
                         exists i :: 0 <= i < |git.newObjects(line.tip.value)| && git.newObjects(line.tip.value)[i] == o;
    }
  }

  // --------------------------------------------------------- what git lists

  /** rev-list tip --not --all: the commits of the tip that no ref has. */
  ghost predicate ListsNewCommits(git: GitView, store: Store, refs: Refs, tip: CommitId) {
    forall c: CommitId :: c in git.newCommits(tip) <==> Ancestor(store, c, tip) && !Reachable(store, refs, c)
  }

  /** diff-tree -c --root --diff-filter=d: what differs from every parent and is still there. */
  ghost predicate ListsChanges(git: GitView, store: Store) {
    forall c: CommitId, p :: c < |store| ==> (p in git.changedPaths(c) <==> Listed(store, c, p))
  }

  /** rev-list --objects tip --not --all: at least the blobs no ref has, with their sizes. */
  ghost predicate ListsNewBlobs(git: GitView, env: Env, store: Store, refs: Refs, tip: CommitId) {
    forall a: CommitId, p :: a < |store| && Ancestor(store, a, tip) && p in store[a].tree ==>
      KnownBlob(store, refs, store[a].tree[p].sha) ||
      Object(store[a].tree[p].sha, true, env.size(store[a].tree[p].sha)) in git.newObjects(tip)
  }

  /** An accepted line is one the ref machine's hook step accepts. */
  lemma AcceptedSizes(line: Line, git: GitView, patterns: seq<string>, env: Env, store: Store, refs: Refs)
    requires line.Update? && line.tip.Some? && line.tip.value < |store|
    requires LinePasses(line, git, patterns, env.threshold) && ListsNewBlobs(git, env, store, refs, line.tip.value)
    ensures HookAcceptsSizes(env, store, refs, line.tip.value)
  {
    var objects := git.newObjects(line.tip.value);
    forall a: CommitId, p | Ancestor(store, a, line.tip.value) && a < |store| && p in store[a].tree
      ensures env.size(store[a].tree[p].sha) < env.threshold || KnownBlob(store, refs, store[a].tree[p].sha)
    {
      var o := Object(store[a].tree[p].sha, true, env.size(store[a].tree[p].sha));
      if o in objects {
        var i :| 0 <= i < |objects| && objects[i] == o;
      }
    }
  }

  /** The same for the path check, with the policy's blocked paths as the refused ones. */
  lemma AcceptedPaths(line: Line, git: GitView, patterns: seq<string>, env: Env, store: Store, refs: Refs)
    requires line.Update? && line.tip.Some? && line.tip.value < |store| && LinePasses(line, git, patterns, env.threshold)
    requires ListsNewCommits(git, store, refs, line.tip.value) && ListsChanges(git, store)
    requires forall p :: env.refused(p) ==> p != "" && Blocked(patterns, p)
    ensures HookAcceptsPaths(env, store, refs, line.tip.value)
  {
    var tip := line.tip.value;
    forall c: CommitId, p | c < |store| && Ancestor(store, c, tip) && !Reachable(store, refs, c) && env.refused(p)
      ensures !Listed(store, c, p)
    {
      assert c in git.newCommits(tip);
      assert PathsPass(git.changedPaths(c), patterns);
      assert p !in git.changedPaths(c);
    }
  }

  // ------------------------------------------------------------- push policy

  /** Some commit reachable before the push has the same mode and blob at the path. */
  ghost predicate Grandfathered(store: Store, refs: Refs, c: CommitId, path: string)
    requires c < |store|
  {
    exists o: CommitId :: o < |store| && Reachable(store, refs, o) && SameEntry(store, c, o, path)
  }

  /**
   * One accepted ref update: every blocked path in the tree of any commit it introduces holds an
   * entry some old commit had at that path. Merges are covered although only paths differing from
   * all parents are listed for them.
   */
  lemma {:induction false} AcceptedLineAddsNothingBlocked(
    line: Line, git: GitView, patterns: seq<string>, threshold: nat, store: Store, refs: Refs, c: CommitId, path: string)
    requires ValidStore(store) && ValidRefs(store, refs)
    requires line.Update? && line.tip.Some? && line.tip.value < |store|
    requires LinePasses(line, git, patterns, threshold)
    requires ListsNewCommits(git, store, refs, line.tip.value) && ListsChanges(git, store)
    requires Ancestor(store, c, line.tip.value) && !Reachable(store, refs, c) && c < |store|
    requires path in store[c].tree && path != "" && Blocked(patterns, path)
    ensures Grandfathered(store, refs, c, path)
    decreases c
  {
    var tip := line.tip.value;
    assert c in git.newCommits(tip);
    var i :| 0 <= i < |git.newCommits(tip)| && git.newCommits(tip)[i] == c;
    assert PathsPass(git.changedPaths(c), patterns);
    assert path !in git.changedPaths(c);
    assert !Listed(store, c, path);
    var j :| 0 <= j < |store[c].parents| && SameEntry(store, c, store[c].parents[j], path);
    var parent := store[c].parents[j];
    assert Ancestor(store, parent, parent);
    assert Ancestor(store, parent, c);
    AncestorTransitive(store, parent, c, tip);
    if !Reachable(store, refs, parent) {
      AcceptedLineAddsNothingBlocked(line, git, patterns, threshold, store, refs, parent, path);
      var o: CommitId :| o < |store| && Reachable(store, refs, o) && SameEntry(store, parent, o, path);
      assert SameEntry(store, c, o, path);
    }
  }

  /** A commit some line of the push brings that no ref had. */
  ghost predicate Introduces(lines: seq<Line>, store: Store, refs: Refs, c: CommitId) {
    c < |store| && !Reachable(store, refs, c) &&
    exists i :: 0 <= i < |lines| && BringsIn(lines[i], store, c)
  }

  ghost predicate BringsIn(line: Line, store: Store, c: CommitId) {
    line.Update? && line.tip.Some? && line.tip.value < |store| && Ancestor(store, c, line.tip.value)
  }

  ghost predicate ListsPush(lines: seq<Line>, git: GitView, store: Store, refs: Refs) {
    ListsChanges(git, store) &&
    forall i :: 0 <= i < |lines| && lines[i].Update? && lines[i].tip.Some? ==> ListsNewCommits(git, store, refs, lines[i].tip.value)
  }

  /**
   * Push policy over the commit graph: if the hook accepts a push, every blocked path in the tree
   * of any commit the push introduces holds an entry some old commit had at that path.
   */
  lemma AcceptedPushAddsNothingBlocked(
    lines: seq<Line>, git: GitView, policies: seq<Policy>, threshold: nat, store: Store, refs: Refs, c: CommitId, path: string)
    requires ValidStore(store) && ValidRefs(store, refs) && ListsPush(lines, git, store, refs)
    requires forall i :: 0 <= i < |lines| ==> LinePasses(lines[i], git, Patterns(policies), threshold)
    requires Introduces(lines, store, refs, c) && path in store[c].tree && path != "" && Blocked(Patterns(policies), path)
    ensures Grandfathered(store, refs, c, path)
  {
    var i :| 0 <= i < |lines| && BringsIn(lines[i], store, c);
    AcceptedLineAddsNothingBlocked(lines[i], git, Patterns(policies), threshold, store, refs, c, path);
  }

  // ---------------------------------------------------- API commits and hook

  /** A commit on at most one base lists exactly the paths the base does not have with the same entry. */
  lemma ListedIsNew(store: Store, store': Store, base: Option<CommitId>, id: CommitId, path: string)
    requires store <= store' && id < |store'| && store'[id].parents == ParentsOf(base) && (base.Some? ==> base.value < |store|)
    ensures Listed(store', id, path) <==> path in store'[id].tree && !Same(BaseTree(store, base), store'[id].tree, path)
  {
    if base.Some? {
      assert store'[id].parents[0] == base.value;
      assert store'[base.value] == store[base.value];
      assert SameEntry(store', id, base.value, path) <==> path in store'[id].tree && Same(BaseTree(store, base), store'[id].tree, path);
    }
  }

  /** The hook accepts a commit's paths exactly when its tree has nothing new at a blocked path. */
  lemma HookAcceptsKept(store: Store, base: Option<CommitId>, made: Commit, patterns: seq<string>, git: GitView)
    requires ValidStore(store) && PrefixFree(made.tree) && made.parents == ParentsOf(base) && (base.Some? ==> base.value < |store|)
    requires ListsChanges(git, CommitTree(store, made).0)
    ensures PathsPass(git.changedPaths(CommitTree(store, made).1), patterns) <==>
            forall p :: p in made.tree && p != "" && Blocked(patterns, p) ==> Same(BaseTree(store, base), made.tree, p)
  {
    CommitTreeStores(store, made);
    var (store', id) := CommitTree(store, made);
    var paths := git.changedPaths(id);
    forall p ensures p in paths <==> p in made.tree && !Same(BaseTree(store, base), made.tree, p) {
      ListedIsNew(store, store', base, id, p);
      assert p in paths <==> Listed(store', id, p);
    }
    if PathsPass(paths, patterns) {
      forall p | p in made.tree && p != "" && Blocked(patterns, p) ensures Same(BaseTree(store, base), made.tree, p) {
        assert p !in paths;
      }
    } else {
      var i :| 0 <= i < |paths| && paths[i] != "" && Blocked(patterns, paths[i]);
      assert paths[i] in paths;
    }
  }

  /**
   * API commits and the hook, for every request, shadowing or not: the hook's path check accepts
   * the commit an API build makes under the policy checker if and only if the deepest pending puts
   * at blocked paths put back what the parent has.
   */
  lemma ApiCommitPassesHookExactly(store: Store, base: Option<CommitId>, ops: seq<CommitOp>, patterns: seq<string>, c: Cleaning,
                                   tree: Index, meta: Meta, git: GitView)
    requires ValidStore(store) && (base.Some? ==> base.value < |store|)
    requires Builds(BaseTree(store, base), ops, path => !Blocked(patterns, path), c, Ok(tree))
    requires ListsChanges(git, CommitTree(store, CommitOf(tree, base, meta)).0)
    ensures StageOps(Start(BaseTree(store, base)), ops, path => !Blocked(patterns, path)).Ok?
    ensures PathsPass(git.changedPaths(CommitTree(store, CommitOf(tree, base, meta)).1), patterns) <==>
            PendingKeeps(BaseTree(store, base), StageOps(Start(BaseTree(store, base)), ops, path => !Blocked(patterns, path)).value,
                         c, path => path != "" && Blocked(patterns, path))
  {
    assert PrefixFree(BaseTree(store, base));
    BuildKeepsExactly(BaseTree(store, base), ops, path => !Blocked(patterns, path), path => path != "" && Blocked(patterns, path), c, Ok(tree));
    HookAcceptsKept(store, base, CommitOf(tree, base, meta), patterns, git);
  }

  /**
   * API enforcement implies hook enforcement: the commit of an API build in which no move re-keys
   * a pending put onto a blocked path passes the hook's path check, and at blocked paths its tree
   * only keeps or drops what its parent had.
   */
  lemma ApiCommitPassesHook(store: Store, base: Option<CommitId>, ops: seq<CommitOp>, patterns: seq<string>, c: Cleaning,
                            tree: Index, meta: Meta, git: GitView)
    requires ValidStore(store) && (base.Some? ==> base.value < |store|)
    requires Builds(BaseTree(store, base), ops, path => !Blocked(patterns, path), c, Ok(tree))
    requires PendingMovesPermitted(Start(BaseTree(store, base)), ops, path => !Blocked(patterns, path))
    requires ListsChanges(git, CommitTree(store, CommitOf(tree, base, meta)).0)
    ensures PathsPass(git.changedPaths(CommitTree(store, CommitOf(tree, base, meta)).1), patterns)
    ensures forall p :: p in tree && Blocked(patterns, p) ==> Same(BaseTree(store, base), tree, p)
  {
    assert PrefixFree(BaseTree(store, base));
    BuildKeepsBlockedPaths(BaseTree(store, base), ops, patterns, c, Ok(tree));
    HookAcceptsKept(store, base, CommitOf(tree, base, meta), patterns, git);
  }
}
