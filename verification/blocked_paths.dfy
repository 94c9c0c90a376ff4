/**
 * What the policy check of an API commit guarantees about the tree that is built. The check is
 * asked about explicit puts and about the entries of a move, but not about the pending puts the
 * move re-keys, and the replay writes those.
 */
module BlockedPaths {
  import opened Paths
  import opened Results
  import opened PathPolicy
  import opened GitIndex
  import opened CommitOps
  import opened Staging
  import opened Replay
  import opened StagingMeaning
  import opened StagingTheorems

  // ------------------------------------------------------- the exact condition

  /** The replay writes the pending puts below which no other is pending. */
  predicate Deepest(pending: PendingPuts, p: string) {
    forall q :: q in pending ==> !StrictlyUnder(q, p)
  }

  predicate Same(a: Index, b: Index, p: string) {
    p in a && p in b && a[p] == b[p]
  }

  /** Every deepest pending put at a watched path puts back what the tree has there. */
  ghost predicate PendingKeeps(tree: Index, s: Staged, c: Cleaning, watched: string -> bool) {
    forall p :: p in s.pending && watched(p) && Deepest(s.pending, p) ==> Same(tree, CleanedEntries(c, s), p)
  }

  /**
   * For every request and every set of paths the policy refuses: the built tree has nothing new
   * at those paths if and only if the deepest pending puts there put back what the tree has.
   */
  lemma {:induction false} BuildKeepsExactly(tree: Index, ops: seq<CommitOp>, allowed: CheckWrite, watched: string -> bool, c: Cleaning, r: Result<Index>)
    requires PrefixFree(tree) && Builds(tree, ops, allowed, c, r) && r.Ok?
    requires forall p :: watched(p) ==> !allowed(p)
    ensures StageOps(Start(tree), ops, allowed).Ok?
    ensures (forall p :: p in r.value && watched(p) ==> Same(tree, r.value, p)) <==>
            PendingKeeps(tree, StageOps(Start(tree), ops, allowed).value, c, watched)
  {
    StartAgrees(tree);
    RunAgrees(Start(tree), Trace(tree), ops, allowed);
    RunAccounted(tree, Trace(tree), ops, allowed);
    var t, s := RunOps(Trace(tree), ops, allowed).value, StageOps(Start(tree), ops, allowed).value;
    var cleaned := CleanedEntries(c, s);
    assert cleaned.Keys == s.pending.Keys;
    forall p | watched(p) && p in r.value && p !in cleaned ensures Same(tree, r.value, p) {
      assert p in t && t[p].entry == r.value[p];
    }
    forall p | p in cleaned ensures p in r.value <==> Deepest(s.pending, p) {
      assert Survives(cleaned, p) <==> Deepest(s.pending, p);
    }
  }

  // --------------------------------------------------------- the guard on moves

  /** No pending put is re-keyed onto a path the policy refuses. */
  predicate MovesPendingPermitted(pending: PendingPuts, op: CommitOp, allowed: CheckWrite) {
    op.IsMove() ==> forall q :: q in pending && Under(q, op.moveFrom) ==> allowed(Rebase(q, op.moveFrom, op.path))
  }

  predicate PendingMovesPermitted(s: Staged, ops: seq<CommitOp>, allowed: CheckWrite)
    decreases ops
  {
    ops == [] ||
    match StageOp(s, ops[0], allowed)
    case Err(_) => true
    case Ok(next) => MovesPendingPermitted(s.pending, ops[0], allowed) && PendingMovesPermitted(next, ops[1..], allowed)
  }

  predicate PendingPermitted(pending: PendingPuts, allowed: CheckWrite) {
    forall p :: p in pending ==> allowed(p)
  }

  /** At every step all pending puts are at permitted paths. */
  predicate AlwaysPermitted(s: Staged, ops: seq<CommitOp>, allowed: CheckWrite)
    decreases ops
  {
    PendingPermitted(s.pending, allowed) &&
    (ops == [] ||
     match StageOp(s, ops[0], allowed)
     case Err(_) => true
     case Ok(next) => AlwaysPermitted(next, ops[1..], allowed))
  }

  lemma {:induction false} StepPermitted(s: Staged, op: CommitOp, allowed: CheckWrite)
    requires PendingPermitted(s.pending, allowed) && StageOp(s, op, allowed).Ok?
    ensures PendingPermitted(StageOp(s, op, allowed).value.pending, allowed) <==> MovesPendingPermitted(s.pending, op, allowed)
  {
    if op.IsMove() {
      MovePermitted(s.pending, op, allowed);
    }
  }

  lemma {:induction false} MovePermitted(pending: PendingPuts, op: CommitOp, allowed: CheckWrite)
    requires PendingPermitted(pending, allowed) && op.IsMove()
    ensures PendingPermitted(MovePending(pending, op.moveFrom, op.path), allowed) <==> MovesPendingPermitted(pending, op, allowed)
  {
    var after := MovePending(pending, op.moveFrom, op.path);
    if PendingPermitted(after, allowed) {
      forall q | q in pending && Under(q, op.moveFrom) ensures allowed(Rebase(q, op.moveFrom, op.path)) {
        MovedHas(pending, op.moveFrom, op.path, q);
        assert Rebase(q, op.moveFrom, op.path) in after;
      }
    }
    if MovesPendingPermitted(pending, op, allowed) {
      forall p | p in after ensures allowed(p) {
        MovedAt(pending, op.moveFrom, op.path, p);
        if p in Moved(pending, op.moveFrom, op.path) {
          RebaseBack(p, op.path, op.moveFrom);
          assert Rebase(p, op.path, op.moveFrom) in pending;
        }
      }
    }
  }

  /** The pending puts stay at permitted paths throughout if and only if no move re-keys one elsewhere. */
  lemma {:induction false} PermittedExactly(s: Staged, ops: seq<CommitOp>, allowed: CheckWrite)
    requires PendingPermitted(s.pending, allowed)
    ensures AlwaysPermitted(s, ops, allowed) <==> PendingMovesPermitted(s, ops, allowed)
    ensures PendingMovesPermitted(s, ops, allowed) && StageOps(s, ops, allowed).Ok? ==>
              PendingPermitted(StageOps(s, ops, allowed).value.pending, allowed)
    decreases ops
  {
    if ops != [] && StageOp(s, ops[0], allowed).Ok? {
      StepPermitted(s, ops[0], allowed);
      if MovesPendingPermitted(s.pending, ops[0], allowed) {
        PermittedExactly(StageOp(s, ops[0], allowed).value, ops[1..], allowed);
      }
    }
  }

  /** A run that shadows nothing never re-keys a put the policy was not asked about. */
  lemma {:induction false} UnshadowedMovesPermitted(s: Staged, t: TracedIndex, ops: seq<CommitOp>, allowed: CheckWrite)
    requires s.index == Forget(t) && PrefixFree(s.index) && s.pending == Puts(t) && NoShadowing(s, ops, allowed)
    ensures PendingMovesPermitted(s, ops, allowed)
    decreases ops
  {
    if ops != [] && StageOp(s, ops[0], allowed).Ok? {
      StepAgrees(s, t, ops[0], allowed);
      StepTracks(s, t, ops[0], allowed);
      forall q | ops[0].IsMove() && q in s.pending && Under(q, ops[0].moveFrom)
        ensures allowed(Rebase(q, ops[0].moveFrom, ops[0].path))
      {
        assert q in Listing(s.index, ops[0].moveFrom);
      }
      UnshadowedMovesPermitted(StageOp(s, ops[0], allowed).value, RunOp(t, ops[0], allowed).value, ops[1..], allowed);
    }
  }

  lemma NoShadowingMovesPermitted(tree: Index, ops: seq<CommitOp>, allowed: CheckWrite)
    requires PrefixFree(tree) && NoShadowing(Start(tree), ops, allowed)
    ensures PendingMovesPermitted(Start(tree), ops, allowed)
  {
    StartAgrees(tree);
    UnshadowedMovesPermitted(Start(tree), Trace(tree), ops, allowed);
  }

  /**
   * API enforcement: under the repository's policy checker, a build in which no move re-keys a
   * pending put onto a blocked path adds or changes no entry at a blocked path.
   */
  lemma BuildKeepsBlockedPaths(tree: Index, ops: seq<CommitOp>, patterns: seq<string>, c: Cleaning, r: Result<Index>)
    requires PrefixFree(tree) && Builds(tree, ops, path => !Blocked(patterns, path), c, r) && r.Ok?
    requires PendingMovesPermitted(Start(tree), ops, path => !Blocked(patterns, path))
    ensures forall p :: p in r.value && Blocked(patterns, p) ==> Same(tree, r.value, p)
  {
    BuildKeepsExactly(tree, ops, path => !Blocked(patterns, path), path => Blocked(patterns, path), c, r);
    PermittedExactly(Start(tree), ops, path => !Blocked(patterns, path));
  }
}
