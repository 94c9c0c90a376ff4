/**
 * What a commit request means: its operations applied one by one to a tree whose entries
 * remember where they come from. The staging engine is compared with this meaning.
 */
module StagingMeaning {
  import opened Paths
  import opened Results
  import opened GitIndex
  import opened CommitOps
  import opened Staging
  import opened Replay

  /** An entry of the old tree, by its path there, or an entry last written by an explicit put. */
  datatype Source = FromTree(origin: string) | FromPut

  datatype Traced = Traced(entry: Entry, source: Source)

  type TracedIndex = map<string, Traced>

  function Trace(tree: Index): TracedIndex {
    map p | p in tree :: Traced(tree[p], FromTree(p))
  }

  function Forget(t: TracedIndex): Index {
    map p | p in t :: t[p].entry
  }

  function PutAt(path: string, e: Entry): CommitOp {
    CommitOp(false, "", path, e.sha, e.mode)
  }

  /** The entries last written by an explicit put, as puts. */
  function Puts(t: TracedIndex): PendingPuts {
    map p | p in t && t[p].source.FromPut? :: PutAt(p, t[p].entry)
  }

  function RunOp(t: TracedIndex, op: CommitOp, allowed: CheckWrite): Result<TracedIndex> {
    if op.IsMove() then
      if Listing(t, op.moveFrom) == {} then Err(PathNotFound)
      else if Listing(t, op.path) != {} || ParentOccupied(t, op.path) then Err(PathExists)
      else if exists q :: q in Listing(t, op.moveFrom) && !allowed(Rebase(q, op.moveFrom, op.path)) then Err(PathBlocked)
      else Ok(Relabel(t, op.moveFrom, op.path))
    else if op.IsDelete() then
      if Listing(t, op.path) == {} then Err(PathNotFound) else Ok(Without(t, op.path))
    else if !allowed(op.path) then Err(PathBlocked)
    else Ok(Put(t, op.path, Traced(EntryOf(op), FromPut)))
  }

  function RunOps(t: TracedIndex, ops: seq<CommitOp>, allowed: CheckWrite): Result<TracedIndex>
    decreases ops
  {
    if ops == [] then Ok(t)
    else match RunOp(t, ops[0], allowed)
      case Err(e) => Err(e)
      case Ok(next) => RunOps(next, ops[1..], allowed)
  }

  // -------------------------------------------------- the index side agrees

  lemma ForgetRelabel(t: TracedIndex, from: string, destination: string)
    ensures Forget(Relabel(t, from, destination)) == Relabel(Forget(t), from, destination)
  {
    forall q ensures SameAt(Forget(Relabel(t, from, destination)), Relabel(Forget(t), from, destination), q) {
      ForgetRelabelAt(t, from, destination, q);
    }
    SameMap(Forget(Relabel(t, from, destination)), Relabel(Forget(t), from, destination));
  }

  lemma ForgetRelabelAt(t: TracedIndex, from: string, destination: string, q: string)
    ensures SameAt(Forget(Relabel(t, from, destination)), Relabel(Forget(t), from, destination), q)
  {
  }

  /** One operation: same outcome, same index, and the index stays prefix-free. */
  lemma {:induction false} StepAgrees(s: Staged, t: TracedIndex, op: CommitOp, allowed: CheckWrite)
    requires s.index == Forget(t) && PrefixFree(s.index)
    ensures match RunOp(t, op, allowed)
            case Err(e) => StageOp(s, op, allowed) == Err(e)
            case Ok(next) => StageOp(s, op, allowed).Ok? && StageOp(s, op, allowed).value.index == Forget(next) &&
                             PrefixFree(Forget(next))
  {
    assert Listing(s.index, op.moveFrom) == Listing(t, op.moveFrom);
    assert Listing(s.index, op.path) == Listing(t, op.path);
    if RunOp(t, op, allowed).Ok? {
      if op.IsMove() {
        ForgetRelabel(t, op.moveFrom, op.path);
        FreeChecks(s.index, op.path);
        RelabelPrefixFree(s.index, op.moveFrom, op.path);
      } else if op.IsDelete() {
        assert Forget(Without(t, op.path)) == Without(s.index, op.path);
      } else {
        assert Forget(Put(t, op.path, Traced(EntryOf(op), FromPut))) == Put(s.index, op.path, EntryOf(op));
        PutPrefixFree(s.index, op.path, EntryOf(op));
      }
    }
  }

  // ------------------------------------------------ the pending side agrees

  /** No pending put lies strictly above the path about to be put. */
  predicate NothingShadowed(pending: PendingPuts, path: string) {
    forall q :: q in pending ==> !StrictlyUnder(path, q)
  }

  /** No put of the run lands strictly beneath a path then pending. */
  predicate NoShadowing(s: Staged, ops: seq<CommitOp>, allowed: CheckWrite)
    decreases ops
  {
    ops == [] ||
    match StageOp(s, ops[0], allowed)
    case Err(_) => true
    case Ok(next) => (ops[0].IsPut() ==> NothingShadowed(s.pending, ops[0].path)) && NoShadowing(next, ops[1..], allowed)
  }

  /** At every step the pending puts are exactly the entries last written by a put. */
  predicate TracksExactly(s: Staged, t: TracedIndex, ops: seq<CommitOp>, allowed: CheckWrite)
    decreases ops
  {
    s.pending == Puts(t) &&
    (ops == [] ||
     match (StageOp(s, ops[0], allowed), RunOp(t, ops[0], allowed))
     case (Ok(s'), Ok(t')) => TracksExactly(s', t', ops[1..], allowed)
     case _ => true)
  }

  lemma PutsRelabel(t: TracedIndex, from: string, destination: string)
    requires Free(t, destination)
    ensures Puts(Relabel(t, from, destination)) == MovePending(Puts(t), from, destination)
  {
    forall q ensures SameAt(Puts(Relabel(t, from, destination)), MovePending(Puts(t), from, destination), q) {
      PutsRelabelAt(t, from, destination, q);
    }
    SameMap(Puts(Relabel(t, from, destination)), MovePending(Puts(t), from, destination));
  }

  lemma PutsRelabelAt(t: TracedIndex, from: string, destination: string, q: string)
    requires Free(t, destination)
    ensures SameAt(Puts(Relabel(t, from, destination)), MovePending(Puts(t), from, destination), q)
  {
    MovedAt(t, from, destination, q);
    MovedAt(Puts(t), from, destination, q);
  }

  lemma TracedFree(s: Staged, t: TracedIndex, destination: string)
    requires s.index == Forget(t)
    ensures Listing(t, destination) == {} && !ParentOccupied(t, destination) <==> Free(t, destination)
    ensures Free(t, destination) <==> Free(s.index, destination)
  {
    FreeChecks(t, destination);
  }

  /** From an exact pending map, one step stays exact if and only if it shadows nothing. */
  lemma {:induction false} StepTracks(s: Staged, t: TracedIndex, op: CommitOp, allowed: CheckWrite)
    requires s.index == Forget(t) && s.pending == Puts(t)
    requires StageOp(s, op, allowed).Ok? && RunOp(t, op, allowed).Ok?
    ensures StageOp(s, op, allowed).value.pending == Puts(RunOp(t, op, allowed).value) <==>
            (op.IsPut() ==> NothingShadowed(s.pending, op.path))
  {
    var next := RunOp(t, op, allowed).value;
    if op.IsMove() {
      TracedFree(s, t, op.path);
      PutsRelabel(t, op.moveFrom, op.path);
    } else if op.IsDelete() {
      assert Puts(Without(t, op.path)) == Without(Puts(t), op.path);
    } else {
      PutTracks(t, op);
    }
  }

  lemma PutTracks(t: TracedIndex, op: CommitOp)
    requires op.IsPut()
    ensures Puts(Put(t, op.path, Traced(EntryOf(op), FromPut))) == Without(Puts(t), op.path)[op.path := op] <==>
            NothingShadowed(Puts(t), op.path)
  {
    var left := Puts(Put(t, op.path, Traced(EntryOf(op), FromPut)));
    var right := Without(Puts(t), op.path)[op.path := op];
    StrictlyUnderAt(op.path, op.path);
    if NothingShadowed(Puts(t), op.path) {
      forall q
        ensures q in left <==> q in right
        ensures q in left ==> left[q] == right[q]
      {
      }
      assert left == right;
    } else {
      var q :| q in Puts(t) && StrictlyUnder(op.path, q);
      StrictlyUnderAt(op.path, q);
      StrictlyUnderAt(q, op.path);
      assert q in right && q !in left;
    }
  }

  /** The pending map is exact at every step of a run if and only if the run shadows nothing. */
  lemma {:induction false} TrackingIsExact(s: Staged, t: TracedIndex, ops: seq<CommitOp>, allowed: CheckWrite)
    requires s.index == Forget(t) && PrefixFree(s.index) && s.pending == Puts(t)
    ensures TracksExactly(s, t, ops, allowed) <==> NoShadowing(s, ops, allowed)
    decreases ops
  {
    if ops != [] {
      StepAgrees(s, t, ops[0], allowed);
      if RunOp(t, ops[0], allowed).Ok? {
        StepTracks(s, t, ops[0], allowed);
        var s', t' := StageOp(s, ops[0], allowed).value, RunOp(t, ops[0], allowed).value;
        if s'.pending == Puts(t') {
          TrackingIsExact(s', t', ops[1..], allowed);
        }
      }
    }
  }

  // ------------------------------------------------------------- whole runs

  /** With or without shadowing, staging fails as the meaning does and leaves the same index. */
  lemma {:induction false} RunAgrees(s: Staged, t: TracedIndex, ops: seq<CommitOp>, allowed: CheckWrite)
    requires s.index == Forget(t) && PrefixFree(s.index)
    ensures match RunOps(t, ops, allowed)
            case Err(e) => StageOps(s, ops, allowed) == Err(e)
            case Ok(final) => StageOps(s, ops, allowed).Ok? && StageOps(s, ops, allowed).value.index == Forget(final) &&
                              PrefixFree(Forget(final))
    decreases ops
  {
    if ops != [] {
      StepAgrees(s, t, ops[0], allowed);
      if RunOp(t, ops[0], allowed).Ok? {
        RunAgrees(StageOp(s, ops[0], allowed).value, RunOp(t, ops[0], allowed).value, ops[1..], allowed);
      }
    }
  }

  lemma {:induction false} FinalPending(s: Staged, t: TracedIndex, ops: seq<CommitOp>, allowed: CheckWrite)
    requires s.index == Forget(t) && PrefixFree(s.index) && s.pending == Puts(t)
    requires NoShadowing(s, ops, allowed) && RunOps(t, ops, allowed).Ok?
    ensures StageOps(s, ops, allowed).Ok? && StageOps(s, ops, allowed).value.pending == Puts(RunOps(t, ops, allowed).value)
    decreases ops
  {
    if ops != [] {
      StepAgrees(s, t, ops[0], allowed);
      StepTracks(s, t, ops[0], allowed);
      FinalPending(StageOp(s, ops[0], allowed).value, RunOp(t, ops[0], allowed).value, ops[1..], allowed);
    }
  }

  /** Every entry of the meaning is accounted for: an unchanged or moved tree entry, or a put. */
  ghost predicate Accounted(tree: Index, t: TracedIndex, allowed: CheckWrite) {
    forall p :: p in t ==>
      match t[p].source
      case FromTree(q) => q in tree && tree[q] == t[p].entry && (q == p || allowed(p))
      case FromPut => allowed(p)
  }

  lemma StepAccounted(tree: Index, t: TracedIndex, op: CommitOp, allowed: CheckWrite)
    requires Accounted(tree, t, allowed) && RunOp(t, op, allowed).Ok?
    ensures Accounted(tree, RunOp(t, op, allowed).value, allowed)
  {
  }

  lemma {:induction false} RunAccounted(tree: Index, t: TracedIndex, ops: seq<CommitOp>, allowed: CheckWrite)
    requires Accounted(tree, t, allowed) && RunOps(t, ops, allowed).Ok?
    ensures Accounted(tree, RunOps(t, ops, allowed).value, allowed)
    decreases ops
  {
    if ops != [] {
      StepAccounted(tree, t, ops[0], allowed);
      RunAccounted(tree, RunOp(t, ops[0], allowed).value, ops[1..], allowed);
    }
  }

  // ------------------------------------------------------ clean and replay

  /** What the final index should be: the meaning, with put entries replaced by their cleaned ones. */
  function Intended(t: TracedIndex, cleaned: Index): Index {
    map p | p in t :: if t[p].source.FromPut? && p in cleaned then cleaned[p] else t[p].entry
  }

  predicate IsPutEntry(t: TracedIndex, p: string) {
    p in t && t[p].source.FromPut?
  }

  /**
   * A stale put does no harm: no entry lies strictly above it, whatever lies strictly under it is
   * pending as well, and it is either identical to the entry in its place or below it another put
   * is pending.
   */
  ghost predicate StalePutHarmless(t: TracedIndex, cleaned: Index, d: string)
    requires d in cleaned
  {
    (forall q :: q in t ==> !StrictlyUnder(d, q)) &&
    (forall q :: q in t && StrictlyUnder(q, d) ==> q in cleaned) &&
    if d in t then t[d].entry == cleaned[d] else exists r :: r in cleaned && StrictlyUnder(r, d)
  }

  /** Stale puts are the pending puts that no entry of the meaning stands for. */
  ghost predicate StalePutsHarmless(t: TracedIndex, cleaned: Index) {
    forall d :: d in cleaned && !IsPutEntry(t, d) ==> StalePutHarmless(t, cleaned, d)
  }

  /** The replay gives the intended index exactly when the stale puts are harmless, one by one. */
  lemma {:induction false} ReplayIsExact(t: TracedIndex, cleaned: Index)
    requires PrefixFree(t)
    requires forall p :: IsPutEntry(t, p) ==> p in cleaned
    ensures Overridden(Forget(t), cleaned) == Intended(t, cleaned) <==> StalePutsHarmless(t, cleaned)
  {
    if StalePutsHarmless(t, cleaned) {
      forall q ensures SameAt(Overridden(Forget(t), cleaned), Intended(t, cleaned), q) {
        HarmlessAt(t, cleaned, q);
      }
      SameMap(Overridden(Forget(t), cleaned), Intended(t, cleaned));
    }
    if Overridden(Forget(t), cleaned) == Intended(t, cleaned) {
      forall d | d in cleaned && !IsPutEntry(t, d) ensures StalePutHarmless(t, cleaned, d) {
        ExactMeansHarmless(t, cleaned, d);
      }
    }
  }

  lemma {:induction false} HarmlessAt(t: TracedIndex, cleaned: Index, q: string)
    requires PrefixFree(t) && StalePutsHarmless(t, cleaned)
    requires forall p :: IsPutEntry(t, p) ==> p in cleaned
    ensures SameAt(Overridden(Forget(t), cleaned), Intended(t, cleaned), q)
  {
    if q in t {
      forall r | r in cleaned ensures !StrictlyUnder(r, q) && (q in cleaned || !StrictlyUnder(q, r)) {
        if !IsPutEntry(t, r) {
          assert StalePutHarmless(t, cleaned, r);
        }
      }
      assert Survives(cleaned, q);
      if q in cleaned && !IsPutEntry(t, q) {
        assert StalePutHarmless(t, cleaned, q);
      }
    } else if q in cleaned {
      assert !IsPutEntry(t, q);
      assert StalePutHarmless(t, cleaned, q);
      var r :| r in cleaned && StrictlyUnder(r, q);
      assert !Survives(cleaned, q);
    }
  }

  lemma {:induction false} ExactMeansHarmless(t: TracedIndex, cleaned: Index, d: string)
    requires Overridden(Forget(t), cleaned) == Intended(t, cleaned)
    requires d in cleaned && !IsPutEntry(t, d)
    ensures StalePutHarmless(t, cleaned, d)
  {
    var final := Overridden(Forget(t), cleaned);
    forall q | q in t ensures Survives(cleaned, q) {
      assert q in Intended(t, cleaned);
      assert q in final;
    }
    if d in t {
      assert final[d] == cleaned[d];
    } else {
      assert d !in Intended(t, cleaned);
      assert d !in final;
      assert !Survives(cleaned, d);
    }
  }
}
