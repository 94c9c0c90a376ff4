/** What staging guarantees for whole requests. */
module StagingTheorems {
  import opened Paths
  import opened Results
  import opened PathPolicy
  import opened GitIndex
  import opened CommitOps
  import opened Staging
  import opened Replay
  import opened StagingMeaning

  function Start(tree: Index): Staged {
    Staged(tree, map[])
  }

  lemma StartAgrees(tree: Index)
    ensures Forget(Trace(tree)) == tree && Puts(Trace(tree)) == map[]
    ensures forall allowed: CheckWrite :: Accounted(tree, Trace(tree), allowed)
  {
  }

  // ------------------------------------------------------------- refinement

  /** Every put entry of the meaning is pending with its value, shadowing or not. */
  ghost predicate Covers(pending: PendingPuts, t: TracedIndex) {
    forall p :: p in Puts(t) ==> p in pending && pending[p] == Puts(t)[p]
  }

  lemma StepCovers(s: Staged, t: TracedIndex, op: CommitOp, allowed: CheckWrite)
    requires s.index == Forget(t) && Covers(s.pending, t)
    requires StageOp(s, op, allowed).Ok? && RunOp(t, op, allowed).Ok?
    ensures Covers(StageOp(s, op, allowed).value.pending, RunOp(t, op, allowed).value)
  {
    if op.IsMove() {
      TracedFree(s, t, op.path);
      forall p | p in Puts(Relabel(t, op.moveFrom, op.path))
        ensures p in MovePending(s.pending, op.moveFrom, op.path)
        ensures MovePending(s.pending, op.moveFrom, op.path)[p] == Puts(Relabel(t, op.moveFrom, op.path))[p]
      {
        MoveCovers(s.pending, t, op.moveFrom, op.path, p);
      }
    } else if op.IsDelete() {
      DeleteCovers(s.pending, t, op.path);
    } else {
      PutCovers(s.pending, t, op);
    }
  }

  lemma DeleteCovers(pending: PendingPuts, t: TracedIndex, path: string)
    requires Covers(pending, t)
    ensures Covers(Without(pending, path), Without(t, path))
  {
  }

  lemma PutCovers(pending: PendingPuts, t: TracedIndex, op: CommitOp)
    requires Covers(pending, t) && op.IsPut()
    ensures Covers(Without(pending, op.path)[op.path := op], Put(t, op.path, Traced(EntryOf(op), FromPut)))
  {
  }

  lemma MoveCovers(pending: PendingPuts, t: TracedIndex, from: string, destination: string, p: string)
    requires Covers(pending, t) && Free(t, destination) && p in Puts(Relabel(t, from, destination))
    ensures p in MovePending(pending, from, destination)
    ensures MovePending(pending, from, destination)[p] == Puts(Relabel(t, from, destination))[p]
  {
    MovedAt(t, from, destination, p);
    MovedAt(pending, from, destination, p);
    if p in Moved(t, from, destination) {
      assert Rebase(p, destination, from) in Puts(t);
    } else {
      assert p in Puts(t);
    }
  }

  lemma {:induction false} RunCovers(s: Staged, t: TracedIndex, ops: seq<CommitOp>, allowed: CheckWrite)
    requires s.index == Forget(t) && PrefixFree(s.index) && Covers(s.pending, t)
    requires StageOps(s, ops, allowed).Ok? && RunOps(t, ops, allowed).Ok?
    ensures Covers(StageOps(s, ops, allowed).value.pending, RunOps(t, ops, allowed).value)
    decreases ops
  {
    if ops != [] {
      StepAgrees(s, t, ops[0], allowed);
      StepCovers(s, t, ops[0], allowed);
      RunCovers(StageOp(s, ops[0], allowed).value, RunOp(t, ops[0], allowed).value, ops[1..], allowed);
    }
  }

  /** The tree a request means: put entries cleaned, all others with the object they had. */
  ghost predicate MeansTree(t: TracedIndex, c: Cleaning, r: Index) {
    r.Keys == t.Keys &&
    forall p :: p in t ==>
      match t[p].source
      case FromTree(_) => r[p] == t[p].entry
      case FromPut => c.Cleaned(Forget(t), PutAt(p, t[p].entry)).Ok? &&
                      r[p] == EntryOf(c.Cleaned(Forget(t), PutAt(p, t[p].entry)).value)
  }

  /** Every entry last written by a put can be cleaned. */
  ghost predicate PutsClean(t: TracedIndex, c: Cleaning) {
    forall p :: p in Puts(t) ==> c.Cleaned(Forget(t), Puts(t)[p]).Ok?
  }

  /** Every pending put that no entry stands for can be cleaned as well. */
  ghost predicate StalePutsClean(t: TracedIndex, c: Cleaning, s: Staged) {
    forall d :: d in s.pending && !IsPutEntry(t, d) ==> c.Cleaned(s.index, s.pending[d]).Ok?
  }

  /** What a request means altogether: its failure, a refusal by the clean pass, or its tree. */
  ghost predicate MeansRequest(tree: Index, ops: seq<CommitOp>, allowed: CheckWrite, c: Cleaning, r: Result<Index>) {
    match RunOps(Trace(tree), ops, allowed)
    case Err(e) => r == Err(e)
    case Ok(t) => (r.Ok? <==> PutsClean(t, c)) && (r.Ok? ==> MeansTree(t, c, r.value))
  }

  /**
   * For every request, shadowing or not: the build fails where the meaning fails, and otherwise
   * comes out as meant if and only if, unless a put entry cannot be cleaned anyway, every stale
   * put can be cleaned and does no harm.
   */
  lemma {:induction false} BuildIsIntended(tree: Index, ops: seq<CommitOp>, allowed: CheckWrite, c: Cleaning, r: Result<Index>)
    requires PrefixFree(tree) && Builds(tree, ops, allowed, c, r)
    ensures match RunOps(Trace(tree), ops, allowed)
            case Err(e) => r == Err(e)
            case Ok(t) =>
              StageOps(Start(tree), ops, allowed).Ok? &&
              var s := StageOps(Start(tree), ops, allowed).value;
              (r.Ok? <==> PutsClean(t, c) && StalePutsClean(t, c, s)) &&
              (MeansRequest(tree, ops, allowed, c, r) <==>
               (PutsClean(t, c) ==> StalePutsClean(t, c, s) && StalePutsHarmless(t, CleanedEntries(c, s))))
  {
    StartAgrees(tree);
    RunAgrees(Start(tree), Trace(tree), ops, allowed);
    if RunOps(Trace(tree), ops, allowed).Ok? {
      var t, s := RunOps(Trace(tree), ops, allowed).value, StageOps(Start(tree), ops, allowed).value;
      RunCovers(Start(tree), Trace(tree), ops, allowed);
      CleanSplits(t, c, s);
      if r.Ok? {
        PrefixFreeTrace(t);
        IntendedMeansTree(t, c, s, r.value);
        ReplayIsExact(t, CleanedEntries(c, s));
      }
    }
  }

  lemma PrefixFreeTrace(t: TracedIndex)
    requires PrefixFree(Forget(t))
    ensures PrefixFree(t)
  {
    assert forall p :: p in t ==> p in Forget(t);
  }

  /** All pending puts clean exactly when the put entries and the stale puts do. */
  lemma {:induction false} CleanSplits(t: TracedIndex, c: Cleaning, s: Staged)
    requires s.index == Forget(t) && Covers(s.pending, t)
    ensures (forall p :: p in s.pending ==> c.Cleaned(s.index, s.pending[p]).Ok?) <==> PutsClean(t, c) && StalePutsClean(t, c, s)
  {
    if PutsClean(t, c) && StalePutsClean(t, c, s) {
      forall p | p in s.pending ensures c.Cleaned(s.index, s.pending[p]).Ok? {
        assert IsPutEntry(t, p) <==> p in Puts(t);
      }
    }
    if forall p :: p in s.pending ==> c.Cleaned(s.index, s.pending[p]).Ok? {
      forall p | p in Puts(t) ensures c.Cleaned(Forget(t), Puts(t)[p]).Ok? {
        assert p in s.pending;
      }
    }
  }

  lemma {:induction false} IntendedMeansTree(t: TracedIndex, c: Cleaning, s: Staged, r: Index)
    requires s.index == Forget(t) && Covers(s.pending, t)
    requires forall p :: p in s.pending ==> c.Cleaned(s.index, s.pending[p]).Ok?
    ensures r == Intended(t, CleanedEntries(c, s)) <==> MeansTree(t, c, r)
    ensures forall p :: IsPutEntry(t, p) ==> p in CleanedEntries(c, s)
  {
    forall p | IsPutEntry(t, p)
      ensures p in CleanedEntries(c, s) && c.Cleaned(Forget(t), PutAt(p, t[p].entry)).Ok?
      ensures CleanedEntries(c, s)[p] == EntryOf(c.Cleaned(Forget(t), PutAt(p, t[p].entry)).value)
    {
      assert p in Puts(t);
    }
    var want := Intended(t, CleanedEntries(c, s));
    if MeansTree(t, c, r) {
      forall p ensures SameAt(r, want, p) {
        assert p in r <==> p in t;
      }
      SameMap(r, want);
    }
    if r == want {
      assert r.Keys == t.Keys;
    }
  }

  /**
   * Staging refinement with provenance: when no put shadows, the pending puts are at every
   * step the entries last written by a put, and the tree built is the meaning of the request:
   * tree entries keep their objects wherever they were moved, puts are swapped for their
   * cleaned blobs, and nothing else is there.
   */
  lemma {:induction false} StagingRefinement(tree: Index, ops: seq<CommitOp>, allowed: CheckWrite, c: Cleaning, r: Result<Index>)
    requires PrefixFree(tree) && Builds(tree, ops, allowed, c, r)
    requires NoShadowing(Start(tree), ops, allowed)
    ensures TracksExactly(Start(tree), Trace(tree), ops, allowed)
    ensures MeansRequest(tree, ops, allowed, c, r)
    ensures match RunOps(Trace(tree), ops, allowed)
            case Err(_) => true
            case Ok(t) =>
              Accounted(tree, t, allowed) && PrefixFree(t) &&
              (r.Err? ==> exists p :: FailsFirst(c, Staged(Forget(t), Puts(t)), p, r.error))
  {
    StartAgrees(tree);
    TrackingIsExact(Start(tree), Trace(tree), ops, allowed);
    RunAgrees(Start(tree), Trace(tree), ops, allowed);
    BuildIsIntended(tree, ops, allowed, c, r);
    if RunOps(Trace(tree), ops, allowed).Ok? {
      var t, s := RunOps(Trace(tree), ops, allowed).value, StageOps(Start(tree), ops, allowed).value;
      RunAccounted(tree, Trace(tree), ops, allowed);
      FinalPending(Start(tree), Trace(tree), ops, allowed);
      PrefixFreeTrace(t);
      NothingStale(t, c, s);
    }
  }

  /**
   * What the tree of an unshadowed request holds where a put came last: with the put's mode, the
   * filter's blob at a path tracked by the final index, and the put's own blob elsewhere. Where no
   * put came last it holds what the old tree had at the place the entry came from.
   */
  lemma {:induction false} BuiltEntries(tree: Index, ops: seq<CommitOp>, allowed: CheckWrite, c: Cleaning, r: Result<Index>)
    requires PrefixFree(tree) && Builds(tree, ops, allowed, c, r) && r.Ok? && NoShadowing(Start(tree), ops, allowed)
    ensures RunOps(Trace(tree), ops, allowed).Ok?
    ensures var t := RunOps(Trace(tree), ops, allowed).value;
            r.value.Keys == t.Keys &&
            forall p :: p in t ==>
              match t[p].source
              case FromTree(origin) => origin in tree && r.value[p] == tree[origin]
              case FromPut => r.value[p].mode == t[p].entry.mode &&
                              HasFilteredBlob(c, Forget(t), CommitOp(false, "", p, t[p].entry.sha, t[p].entry.mode), r.value[p].sha)
  {
    StagingRefinement(tree, ops, allowed, c, r);
    var t := RunOps(Trace(tree), ops, allowed).value;
    forall p | p in t && t[p].source.FromPut?
      ensures r.value[p].mode == t[p].entry.mode && HasFilteredBlob(c, Forget(t), PutAt(p, t[p].entry), r.value[p].sha)
    {
      CleanedMeans(c, Forget(t), PutAt(p, t[p].entry));
    }
  }

  lemma NothingStale(t: TracedIndex, c: Cleaning, s: Staged)
    requires s.pending == Puts(t)
    ensures StalePutsClean(t, c, s) && StalePutsHarmless(t, CleanedEntries(c, s))
  {
    assert forall d :: d in Puts(t) ==> IsPutEntry(t, d);
  }

  // -------------------------------------------------- requests without moves

  ghost predicate MoveFree(ops: seq<CommitOp>) {
    forall i :: 0 <= i < |ops| ==> !ops[i].IsMove()
  }

  /** A validated request without moves never shadows. */
  lemma {:induction false} MoveFreeNeverShadows(tree: Index, ops: seq<CommitOp>, allowed: CheckWrite)
    requires MoveFree(ops) && Disjoint(ops)
    ensures NoShadowing(Start(tree), ops, allowed)
  {
    DisjointNeverShadows(Start(tree), ops, allowed);
  }

  lemma {:induction false} DisjointNeverShadows(s: Staged, ops: seq<CommitOp>, allowed: CheckWrite)
    requires MoveFree(ops) && Disjoint(ops)
    requires forall q, i :: q in s.pending && 0 <= i < |ops| ==> !Comparable(q, ops[i].path)
    ensures NoShadowing(s, ops, allowed)
    decreases ops
  {
    if ops != [] && StageOp(s, ops[0], allowed).Ok? {
      var next := StageOp(s, ops[0], allowed).value;
      forall q, i | q in next.pending && 0 <= i < |ops[1..]| ensures !Comparable(q, ops[1..][i].path) {
        assert ops[1..][i] == ops[i + 1];
        assert q in s.pending || q == ops[0].path;
      }
      DisjointNeverShadows(next, ops[1..], allowed);
    }
  }

  /** An old entry no operation of a move-free request touches. */
  ghost predicate Untouched(ops: seq<CommitOp>, q: string) {
    forall op :: op in ops ==> !Under(q, op.path) && (op.IsPut() ==> !Under(op.path, q))
  }

  /** The old index, minus what lies under deletes, minus what is comparable with puts, plus the puts. */
  ghost predicate ClosedForm(index: Index, ops: seq<CommitOp>, r: Index) {
    (forall op :: op in ops && op.IsPut() ==> op.path in r && r[op.path] == EntryOf(op)) &&
    (forall q :: q in index && Untouched(ops, q) ==> q in r && r[q] == index[q]) &&
    (forall q :: q in r ==> (q in index && Untouched(ops, q)) || exists op :: op in ops && op.IsPut() && op.path == q)
  }

  ghost predicate PendingForm(pending: PendingPuts, ops: seq<CommitOp>, r: PendingPuts) {
    (forall op :: op in ops && op.IsPut() ==> op.path in r && r[op.path] == op) &&
    (forall q :: q in pending ==> q in r && r[q] == pending[q]) &&
    (forall q :: q in r ==> q in pending || exists op :: op in ops && op.IsPut() && op.path == q)
  }

  ghost predicate Permitted(index: Index, ops: seq<CommitOp>, allowed: CheckWrite) {
    forall op :: op in ops ==> if op.IsDelete() then Listing(index, op.path) != {} else allowed(op.path)
  }

  lemma ListingUnaffected(s: Staged, op: CommitOp, allowed: CheckWrite, path: string)
    requires !op.IsMove() && StageOp(s, op, allowed).Ok? && !Comparable(op.path, path)
    ensures Listing(StageOp(s, op, allowed).value.index, path) == Listing(s.index, path)
  {
    forall q | Under(q, path) ensures !Comparable(q, op.path) {
      if Under(q, op.path) {
        AncestorsComparable(q, op.path, path);
      }
      if Under(op.path, q) {
        UnderTransitive(op.path, q, path);
      }
    }
  }

  lemma ClosedFormStep(index: Index, next: Index, op: CommitOp, rest: seq<CommitOp>, r: Index)
    requires !op.IsMove() && forall o :: o in rest ==> !Comparable(op.path, o.path)
    requires next == if op.IsPut() then Put(index, op.path, EntryOf(op)) else Without(index, op.path)
    requires ClosedForm(next, rest, r)
    ensures ClosedForm(index, [op] + rest, r)
  {
  }

  lemma PendingFormStep(pending: PendingPuts, op: CommitOp, rest: seq<CommitOp>, r: PendingPuts)
    requires !op.IsMove() && forall q :: q in pending ==> !Comparable(q, op.path)
    requires PendingForm(if op.IsPut() then Without(pending, op.path)[op.path := op] else Without(pending, op.path), rest, r)
    ensures PendingForm(pending, [op] + rest, r)
  {
  }

  /** A move-free run in any order succeeds exactly when it is permitted, with the closed form. */
  lemma {:induction false} MoveFreeRun(s: Staged, ops: seq<CommitOp>, allowed: CheckWrite)
    requires MoveFree(ops) && Disjoint(ops)
    requires forall q, i :: q in s.pending && 0 <= i < |ops| ==> !Comparable(q, ops[i].path)
    ensures StageOps(s, ops, allowed).Ok? <==> Permitted(s.index, ops, allowed)
    ensures StageOps(s, ops, allowed).Ok? ==>
              ClosedForm(s.index, ops, StageOps(s, ops, allowed).value.index) &&
              PendingForm(s.pending, ops, StageOps(s, ops, allowed).value.pending)
    decreases ops
  {
    if ops != [] {
      var op, rest := ops[0], ops[1..];
      assert ops == [op] + rest;
      forall i | 0 <= i < |rest| ensures !Comparable(op.path, rest[i].path) {
        assert rest[i] == ops[i + 1];
      }
      PermittedStep(s, op, rest, allowed);
      if StageOp(s, op, allowed).Ok? {
        var next := StageOp(s, op, allowed).value;
        forall q, i | q in next.pending && 0 <= i < |rest| ensures !Comparable(q, rest[i].path) {
          assert rest[i] == ops[i + 1];
          assert q in s.pending || q == op.path;
        }
        MoveFreeRun(next, rest, allowed);
        if StageOps(next, rest, allowed).Ok? {
          ClosedFormStep(s.index, next.index, op, rest, StageOps(next, rest, allowed).value.index);
          PendingFormStep(s.pending, op, rest, StageOps(next, rest, allowed).value.pending);
        }
      }
    }
  }

  lemma PermittedStep(s: Staged, op: CommitOp, rest: seq<CommitOp>, allowed: CheckWrite)
    requires !op.IsMove() && forall i :: 0 <= i < |rest| ==> !Comparable(op.path, rest[i].path)
    ensures Permitted(s.index, [op] + rest, allowed) <==>
            StageOp(s, op, allowed).Ok? && Permitted(StageOp(s, op, allowed).value.index, rest, allowed)
  {
    var ops := [op] + rest;
    assert op in ops;
    assert forall o :: o in ops <==> o == op || o in rest;
    if StageOp(s, op, allowed).Ok? {
      var next := StageOp(s, op, allowed).value;
      forall o | o in rest ensures Listing(next.index, o.path) == Listing(s.index, o.path) {
        ListingUnaffected(s, op, allowed, o.path);
      }
    }
  }

  /** The closed form and the pending form determine their maps, whatever the order of the list. */
  lemma ClosedFormUnique(index: Index, ops: seq<CommitOp>, perm: seq<CommitOp>, r: Index, r': Index)
    requires forall op :: op in ops <==> op in perm
    requires ClosedForm(index, ops, r) && ClosedForm(index, perm, r')
    ensures r == r'
  {
  }

  lemma PendingFormUnique(pending: PendingPuts, ops: seq<CommitOp>, perm: seq<CommitOp>, r: PendingPuts, r': PendingPuts)
    requires forall op :: op in ops <==> op in perm
    requires PendingForm(pending, ops, r) && PendingForm(pending, perm, r')
    requires forall op :: op in ops && op.IsPut() ==> op.path !in pending
    ensures r == r'
  {
  }

  lemma TwoPositions(s: seq<CommitOp>, x: CommitOp, y: CommitOp) returns (i: nat, j: nat)
    requires multiset{x, y} <= multiset(s)
    ensures i < |s| && j < |s| && i != j && s[i] == x && s[j] == y
  {
    assert x in multiset{x, y};
    i :| 0 <= i < |s| && s[i] == x;
    RemoveAt(s, i);
    var rest := s[..i] + s[i + 1..];
    assert multiset{x, y} == multiset{x} + multiset{y};
    assert y in multiset(rest);
    var k :| 0 <= k < |rest| && rest[k] == y;
    j := if k < i then k else k + 1;
  }

  lemma RemoveAt(s: seq<CommitOp>, i: nat)
    requires i < |s|
    ensures multiset(s) == multiset(s[..i] + s[i + 1..]) + multiset{s[i]}
  {
    assert s == s[..i] + [s[i]] + s[i + 1..];
  }

  lemma PermutationDisjoint(ops: seq<CommitOp>, perm: seq<CommitOp>)
    requires multiset(ops) == multiset(perm) && Disjoint(ops) && MoveFree(ops)
    ensures Disjoint(perm) && MoveFree(perm)
    ensures forall op :: op in ops <==> op in perm
  {
    forall op ensures op in ops <==> op in perm {
      assert op in ops <==> op in multiset(ops);
      assert op in perm <==> op in multiset(perm);
    }
    forall i | 0 <= i < |perm| ensures !perm[i].IsMove() {
      assert perm[i] in ops;
    }
    forall i, j | 0 <= i < j < |perm| ensures !Comparable(perm[i].path, perm[j].path) {
      PairIn(perm, i, j);
      var k, l := TwoPositions(ops, perm[i], perm[j]);
    }
  }

  lemma PairIn(s: seq<CommitOp>, i: nat, j: nat)
    requires i < j < |s|
    ensures multiset{s[i], s[j]} <= multiset(s)
  {
    assert s == s[..i] + [s[i]] + s[i + 1..j] + [s[j]] + s[j + 1..];
    assert multiset(s) == multiset(s[..i]) + multiset{s[i]} + multiset(s[i + 1..j]) + multiset{s[j]} + multiset(s[j + 1..]);
  }

  /**
   * Order independence: every permutation of a validated move-free request succeeds or fails
   * alike, and on success gives the same index, which is the closed form, and the same puts.
   */
  lemma {:induction false} OrderIndependence(tree: Index, ops: seq<CommitOp>, perm: seq<CommitOp>, allowed: CheckWrite)
    requires ValidOps(ops) && MoveFree(ops) && multiset(ops) == multiset(perm)
    ensures var r, r' := StageOps(Start(tree), ops, allowed), StageOps(Start(tree), perm, allowed);
            (r.Ok? <==> Permitted(tree, ops, allowed)) &&
            (r.Ok? <==> r'.Ok?) &&
            (r.Ok? ==> ClosedForm(tree, ops, r.value.index) && r == r')
  {
    PermutationDisjoint(ops, perm);
    MoveFreeRun(Start(tree), ops, allowed);
    MoveFreeRun(Start(tree), perm, allowed);
    assert Permitted(tree, ops, allowed) <==> Permitted(tree, perm, allowed);
    var r, r' := StageOps(Start(tree), ops, allowed), StageOps(Start(tree), perm, allowed);
    if r.Ok? {
      ClosedFormUnique(tree, ops, perm, r.value.index, r'.value.index);
      PendingFormUnique(map[], ops, perm, r.value.pending, r'.value.pending);
    }
  }

  // ------------------------------------------------------------------ moves

  lemma {:induction false} RebasedCount(paths: set<string>, from: string, destination: string)
    requires forall q :: q in paths ==> Under(q, from)
    ensures |set q | q in paths :: Rebase(q, from, destination)| == |paths|
    decreases |paths|
  {
    if paths != {} {
      var p :| p in paths;
      var fewer := paths - {p};
      RebasedCount(fewer, from, destination);
      var image := set q | q in fewer :: Rebase(q, from, destination);
      forall q | q in fewer ensures Rebase(q, from, destination) != Rebase(p, from, destination) {
        RebaseKeepsOrder(q, p, from, destination);
      }
      assert (set q | q in paths :: Rebase(q, from, destination)) == image + {Rebase(p, from, destination)};
    }
  }

  lemma MovedKeys(m: Index, from: string, destination: string)
    ensures Moved(m, from, destination).Keys == set q | q in Listing(m, from) :: Rebase(q, from, destination)
  {
    var image := set q | q in Listing(m, from) :: Rebase(q, from, destination);
    forall t ensures t in Moved(m, from, destination) <==> t in image {
      MovedAt(m, from, destination, t);
      if t in Moved(m, from, destination) {
        var q := Rebase(t, destination, from);
        RebaseBack(t, destination, from);
        assert q in Listing(m, from);
      }
      if t in image {
        var q :| q in Listing(m, from) && Rebase(q, from, destination) == t;
        MovedHas(m, from, destination, q);
      }
    }
  }

  /**
   * Moves relabel and nothing else: the result is prefix-free with as many entries, the
   * subtree is renamed one-to-one with its entries kept, and all other entries are untouched.
   */
  lemma {:induction false} MoveOnlyRelabels(s: Staged, from: string, destination: string, allowed: CheckWrite)
    requires PrefixFree(s.index) && StageMove(s, from, destination, allowed).Ok?
    ensures var next := StageMove(s, from, destination, allowed).value.index;
            PrefixFree(next) && |next| == |s.index| &&
            (forall q :: q in s.index && Under(q, from) ==>
              Rebase(q, from, destination) in next && next[Rebase(q, from, destination)] == s.index[q]) &&
            (forall q :: q in s.index && !Under(q, from) ==> q in next && next[q] == s.index[q]) &&
            (forall t :: t in next ==> (t in s.index && !Under(t, from)) ||
                                       (Under(t, destination) && Rebase(t, destination, from) in s.index))
  {
    var next := StageMove(s, from, destination, allowed).value.index;
    FreeChecks(s.index, destination);
    RelabelPrefixFree(s.index, from, destination);
    forall q | q in s.index && Under(q, from)
      ensures Rebase(q, from, destination) in next && next[Rebase(q, from, destination)] == s.index[q]
    {
      MovedHas(s.index, from, destination, q);
    }
    forall t ensures t in Moved(s.index, from, destination) ==>
                       Under(t, destination) && Rebase(t, destination, from) in s.index
    {
      MovedAt(s.index, from, destination, t);
    }
    RelabelCount(s.index, from, destination);
  }

  lemma RelabelCount(m: Index, from: string, destination: string)
    requires Free(m, destination)
    ensures |Relabel(m, from, destination)| == |m|
  {
    MovedKeys(m, from, destination);
    RebasedCount(Listing(m, from), from, destination);
    RelabelKeys(m, from, destination);
    assert |Relabel(m, from, destination).Keys| == |Without(m, from).Keys| + |Moved(m, from, destination).Keys|;
    assert |m.Keys| == |Without(m, from).Keys| + |Listing(m, from)|;
  }

  /** The keys kept, the keys moved away and the keys moved in do not meet. */
  lemma RelabelKeys(m: Index, from: string, destination: string)
    requires Free(m, destination)
    ensures var kept, moved := Without(m, from).Keys, Moved(m, from, destination).Keys;
            kept !! moved && Relabel(m, from, destination).Keys == kept + moved &&
            kept !! Listing(m, from) && m.Keys == kept + Listing(m, from)
  {
    forall t | t in Moved(m, from, destination) ensures t !in Without(m, from) {
      MovedAt(m, from, destination, t);
    }
  }

  /** Two paths one of which git found free next to the other are not nested. */
  lemma MoveEndsApart(s: Staged, from: string, destination: string, allowed: CheckWrite)
    requires StageMove(s, from, destination, allowed).Ok? && !Under(destination, from)
    ensures !Comparable(from, destination)
    ensures forall q :: !(Under(q, from) && Under(q, destination))
  {
    FreeChecks(s.index, destination);
    var q :| q in Listing(s.index, from);
    if Under(from, destination) {
      UnderTransitive(q, from, destination);
    }
    forall q ensures !(Under(q, from) && Under(q, destination)) {
      if Under(q, from) && Under(q, destination) {
        AncestorsComparable(q, from, destination);
      }
    }
  }

  lemma RelabelBack<V>(m: map<string, V>, from: string, destination: string)
    requires forall q :: q in m ==> !Under(q, destination)
    requires forall q :: !(Under(q, from) && Under(q, destination))
    ensures Relabel(Relabel(m, from, destination), destination, from) == m
  {
    var there := Relabel(m, from, destination);
    var back := Relabel(there, destination, from);
    forall q ensures SameAt(back, m, q) {
      MovedAt(there, destination, from, q);
      var t := Rebase(q, from, destination);
      MovedAt(m, from, destination, t);
      MovedAt(m, from, destination, q);
      if Under(q, from) {
        RebaseBack(q, from, destination);
      }
    }
    SameMap(back, m);
  }

  lemma PendingBack(pending: PendingPuts, from: string, destination: string)
    requires WellKeyed(pending)
    requires forall q :: !(Under(q, from) && Under(q, destination))
    ensures MovePending(MovePending(pending, from, destination), destination, from) == pending <==>
            forall q :: q in pending ==> !Under(q, destination)
  {
    var there := MovePending(pending, from, destination);
    var back := MovePending(there, destination, from);
    if forall q :: q in pending ==> !Under(q, destination) {
      forall q ensures SameAt(back, pending, q) {
        PendingBackAt(pending, from, destination, q);
      }
      SameMap(back, pending);
    } else {
      var q :| q in pending && Under(q, destination);
      MovedAt(there, destination, from, q);
      assert q !in back;
    }
  }

  lemma PendingBackAt(pending: PendingPuts, from: string, destination: string, q: string)
    requires WellKeyed(pending)
    requires forall q :: !(Under(q, from) && Under(q, destination))
    requires forall q :: q in pending ==> !Under(q, destination)
    ensures SameAt(MovePending(MovePending(pending, from, destination), destination, from), pending, q)
  {
    var there := MovePending(pending, from, destination);
    MovedAt(there, destination, from, q);
    var t := Rebase(q, from, destination);
    MovedAt(pending, from, destination, t);
    MovedAt(pending, from, destination, q);
    if Under(q, from) {
      RebaseBack(q, from, destination);
    }
  }

  /**
   * Moving back: after a move outside itself, the reverse move succeeds when the policy permits
   * the old paths, and restores the index. It restores the pending puts too if and only if none
   * of them lay under the destination before.
   */
  lemma {:induction false} MoveBackRestores(s: Staged, from: string, destination: string, allowed: CheckWrite)
    requires PrefixFree(s.index) && WellKeyed(s.pending)
    requires StageMove(s, from, destination, allowed).Ok? && !Under(destination, from)
    requires forall q :: q in Listing(s.index, from) ==> allowed(q)
    ensures var next := StageMove(s, from, destination, allowed).value;
            StageMove(next, destination, from, allowed).Ok? &&
            var back := StageMove(next, destination, from, allowed).value;
            back.index == s.index &&
            (back.pending == s.pending <==> forall q :: q in s.pending ==> !Under(q, destination))
  {
    MoveEndsApart(s, from, destination, allowed);
    FreeChecks(s.index, destination);
    MoveBackPermitted(s.index, from, destination, allowed);
    RelabelBack(s.index, from, destination);
    PendingBack(s.pending, from, destination);
  }

  /**
   * After any run that shadowed nothing, a move outside itself and the move back restore the whole
   * state, index and pending puts, whenever the policy permits the old paths.
   */
  lemma {:induction false} UnshadowedMoveBack(tree: Index, ops: seq<CommitOp>, from: string, destination: string, allowed: CheckWrite)
    requires PrefixFree(tree) && NoShadowing(Start(tree), ops, allowed) && StageOps(Start(tree), ops, allowed).Ok?
    requires var s := StageOps(Start(tree), ops, allowed).value;
             StageMove(s, from, destination, allowed).Ok? && !Under(destination, from) &&
             forall q :: q in Listing(s.index, from) ==> allowed(q)
    ensures var s := StageOps(Start(tree), ops, allowed).value;
            StageMove(StageMove(s, from, destination, allowed).value, destination, from, allowed) == Ok(s)
  {
    StartAgrees(tree);
    RunAgrees(Start(tree), Trace(tree), ops, allowed);
    FinalPending(Start(tree), Trace(tree), ops, allowed);
    var s, t := StageOps(Start(tree), ops, allowed).value, RunOps(Trace(tree), ops, allowed).value;
    FreeChecks(s.index, destination);
    assert forall q :: q in s.pending ==> q in s.index;
    MoveBackRestores(s, from, destination, allowed);
  }

  lemma MoveBackPermitted(m: Index, from: string, destination: string, allowed: CheckWrite)
    requires PrefixFree(m) && Free(m, destination) && Listing(m, from) != {} && !Comparable(from, destination)
    requires forall q :: q in Listing(m, from) ==> allowed(q)
    ensures var there := Relabel(m, from, destination);
            Listing(there, destination) != {} && Listing(there, from) == {} && !ParentOccupied(there, from) &&
            forall q :: q in Listing(there, destination) ==> allowed(Rebase(q, destination, from))
  {
    var there := Relabel(m, from, destination);
    SourceFreed(m, from, destination);
    FreeChecks(there, from);
    var e :| e in Listing(m, from);
    MovedHas(m, from, destination, e);
    RebaseBack(e, from, destination);
    assert Rebase(e, from, destination) in Listing(there, destination);
    forall q | q in Listing(there, destination) ensures allowed(Rebase(q, destination, from)) {
      MovedAt(m, from, destination, q);
      assert Rebase(q, destination, from) in Listing(m, from);
    }
  }

  /** After a move nothing is comparable with the source. */
  lemma SourceFreed(m: Index, from: string, destination: string)
    requires PrefixFree(m) && Free(m, destination) && Listing(m, from) != {} && !Comparable(from, destination)
    ensures Free(Relabel(m, from, destination), from)
  {
    var e :| e in Listing(m, from);
    forall q | q in Relabel(m, from, destination) ensures !Comparable(q, from) {
      MovedAt(m, from, destination, q);
      if q in Moved(m, from, destination) {
        if Under(q, from) {
          AncestorsComparable(q, from, destination);
        } else if Under(from, q) {
          UnderTransitive(from, q, destination);
        }
      } else if Under(from, q) {
        UnderTransitive(e, from, q);
      }
    }
  }

  /**
   * When a move succeeds: something is at the source, nothing is at, below or above the
   * destination, and the policy permits every target. Otherwise the first of these tells why.
   */
  lemma MoveSucceedsExactly(s: Staged, from: string, destination: string, allowed: CheckWrite)
    ensures var r := StageMove(s, from, destination, allowed);
            var found := exists q :: q in s.index && Under(q, from);
            var permitted := forall q :: q in s.index && Under(q, from) ==> allowed(Rebase(q, from, destination));
            (r.Ok? <==> found && Free(s.index, destination) && permitted) &&
            (r.Err? ==> r.error == if !found then PathNotFound else if !Free(s.index, destination) then PathExists else PathBlocked)
  {
    FreeChecks(s.index, destination);
    if exists q :: q in s.index && Under(q, from) {
      var q :| q in s.index && Under(q, from);
      assert q in Listing(s.index, from);
    }
    forall q | q in s.index && Under(q, from) ensures q in Listing(s.index, from) {
    }
  }

  // ------------------------------------------------- puts and deletes, spelled out

  /** What a put does, path by path: it replaces whatever is at, above or below its path, if the policy permits it. */
  lemma PutMeans(s: Staged, op: CommitOp, allowed: CheckWrite)
    requires op.moveFrom == "" && !op.delete
    ensures var r := StageOp(s, op, allowed);
            var p := op.path;
            if !allowed(p) then r == Err(PathBlocked)
            else
              r.Ok? && p in r.value.index && r.value.index[p] == Entry(op.mode, op.blobSHA) &&
              p in r.value.pending && r.value.pending[p] == op &&
              (forall q :: q != p ==>
                (q in r.value.index <==> q in s.index && !(p + "/" <= q) && !(q + "/" <= p)) &&
                (q in r.value.pending <==> q in s.pending && !(p + "/" <= q))) &&
              (forall q :: q != p && q in r.value.index ==> r.value.index[q] == s.index[q]) &&
              (forall q :: q != p && q in r.value.pending ==> r.value.pending[q] == s.pending[q])
  {
  }

  /** What a delete does: it drops the path and all below it, and needs something there. */
  lemma DeleteMeans(s: Staged, op: CommitOp, allowed: CheckWrite)
    requires op.moveFrom == "" && op.delete
    ensures var r := StageOp(s, op, allowed);
            var p := op.path;
            if forall q :: q in s.index ==> q != p && !(p + "/" <= q) then r == Err(PathNotFound)
            else
              r.Ok? &&
              (forall q ::
                (q in r.value.index <==> q in s.index && q != p && !(p + "/" <= q)) &&
                (q in r.value.pending <==> q in s.pending && q != p && !(p + "/" <= q))) &&
              (forall q :: q in r.value.index ==> r.value.index[q] == s.index[q]) &&
              (forall q :: q in r.value.pending ==> r.value.pending[q] == s.pending[q])
  {
    forall q ensures q in Listing(s.index, op.path) <==> q in s.index && (q == op.path || op.path + "/" <= q) {
    }
    if exists q :: q in s.index && (q == op.path || op.path + "/" <= q) {
      var q :| q in s.index && (q == op.path || op.path + "/" <= q);
      assert q in Listing(s.index, op.path);
    }
  }

  /** What a move does to the pending puts: those under its source follow it and win, the others stay. */
  lemma MovePutsMean(s: Staged, from: string, destination: string, allowed: CheckWrite)
    requires StageMove(s, from, destination, allowed).Ok?
    ensures var pending := StageMove(s, from, destination, allowed).value.pending;
            (forall q :: q in s.pending && (q == from || from + "/" <= q) ==>
              var t := destination + q[|from|..];
              t in pending && pending[t] == s.pending[q].(path := t)) &&
            forall t ::
              var followed := (t == destination || destination + "/" <= t) && from + t[|destination|..] in s.pending;
              (t in pending <==> followed || (t in s.pending && t != from && !(from + "/" <= t))) &&
              (t in pending && !followed ==> pending[t] == s.pending[t])
  {
    var pending := StageMove(s, from, destination, allowed).value.pending;
    forall q | q in s.pending && (q == from || from + "/" <= q)
      ensures var t := destination + q[|from|..]; t in pending && pending[t] == s.pending[q].(path := t)
    {
      MovedHas(s.pending, from, destination, q);
    }
    forall t
      ensures var followed := (t == destination || destination + "/" <= t) && from + t[|destination|..] in s.pending;
              (t in pending <==> followed || (t in s.pending && t != from && !(from + "/" <= t))) &&
              (t in pending && !followed ==> pending[t] == s.pending[t])
    {
      MovedAt(s.pending, from, destination, t);
      if t == destination || destination + "/" <= t {
        RebaseBack(t, destination, from);
      }
      assert t in Without(s.pending, from) <==> t in s.pending && t != from && !(from + "/" <= t);
    }
  }

  // ----------------------------------------------------------------- policy

  /** A run that succeeds has asked the policy about every put. */
  lemma {:induction false} StagedPutsArePermitted(s: Staged, ops: seq<CommitOp>, allowed: CheckWrite)
    requires StageOps(s, ops, allowed).Ok?
    ensures forall i :: 0 <= i < |ops| && ops[i].IsPut() ==> allowed(ops[i].path)
    decreases ops
  {
    if ops != [] {
      StagedPutsArePermitted(StageOp(s, ops[0], allowed).value, ops[1..], allowed);
      forall i | 0 <= i < |ops| && ops[i].IsPut() ensures allowed(ops[i].path) {
        if i > 0 {
          assert ops[1..][i - 1] == ops[i];
        }
      }
    }
  }

  /**
   * The service's check of all put paths before it calls the backend refuses only requests that
   * staging would refuse anyway.
   */
  lemma EarlyCheckRefusesNothingMore(tree: Index, ops: seq<CommitOp>, patterns: seq<string>, op: CommitOp)
    requires Accepted(ops) && op in ops && op.IsPut() && Blocked(patterns, Normalize(op.path))
    ensures StageOps(Start(tree), NormalOps(ops), path => !Blocked(patterns, path)).Err?
  {
    var i :| 0 <= i < |ops| && ops[i] == op;
    assert NormalOps(ops)[i].IsPut() && NormalOps(ops)[i].path == Normalize(op.path);
    if StageOps(Start(tree), NormalOps(ops), path => !Blocked(patterns, path)).Ok? {
      StagedPutsArePermitted(Start(tree), NormalOps(ops), path => !Blocked(patterns, path));
    }
  }
}
