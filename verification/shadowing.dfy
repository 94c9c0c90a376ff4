/**
 * The boundary of the staging refinement: validated requests in which a put lands under a
 * path where a moved put is still pending, and whose replay drops an entry that was moved.
 */
module Shadowing {
  import opened Paths
  import opened Results
  import opened GitIndex
  import opened GitIds
  import opened CommitOps
  import opened Staging
  import opened Replay
  import opened StagingMeaning
  import opened StagingTheorems
  import opened StagingSteps

  /** A tree holding kept, a put at x that is moved to d, and a put below d. */
  datatype Layout = Layout(kept: string, x: string, d: string, below: string)

  predicate Laid(l: Layout) {
    l.x != "" && l.below != "" && l.kept != "" &&
    !Comparable(l.kept, l.x) && !Comparable(l.kept, l.d) && !Comparable(l.kept, l.below) && !Comparable(l.x, l.d) &&
    StrictlyUnder(l.below, l.d) && !Under(l.d, l.below)
  }

  /** put x; move x to d; put below. */
  function Opening(l: Layout, sha1: string, sha2: string, rest: seq<CommitOp>): seq<CommitOp> {
    [PutOf(l.x, sha1)] + ([MoveOf(l.x, l.d)] + ([PutOf(l.below, sha2)] + rest))
  }

  // The states of the run.

  function AfterPut(l: Layout, sha1: string, e: Entry): Staged {
    Staged(map[l.kept := e][l.x := Entry("100644", sha1)], map[][l.x := PutOf(l.x, sha1)])
  }

  function AfterMove(l: Layout, sha1: string, e: Entry): Staged {
    Staged(map[l.kept := e][l.d := Entry("100644", sha1)], map[][l.d := PutOf(l.d, sha1)])
  }

  /** The put at d is shadowed: still pending, although what is there now is the put below it. */
  function Shadowed(l: Layout, sha1: string, sha2: string, e: Entry): Staged {
    Staged(map[l.kept := e][l.below := Entry("100644", sha2)], map[][l.d := PutOf(l.d, sha1)][l.below := PutOf(l.below, sha2)])
  }

  lemma PutShadows(l: Layout, sha1: string, sha2: string, e: Entry, rest: seq<CommitOp>, allowed: CheckWrite)
    requires Laid(l) && allowed(l.below)
    ensures StageOps(AfterMove(l, sha1, e), [PutOf(l.below, sha2)] + rest, allowed) == StageOps(Shadowed(l, sha1, sha2, e), rest, allowed)
  {
    PutInto(map[l.kept := e], map[], l.d, l.below, Entry("100644", sha1), PutOf(l.d, sha1), sha2, allowed);
    StageCons(AfterMove(l, sha1, e), PutOf(l.below, sha2), rest, Shadowed(l, sha1, sha2, e), allowed);
  }

  lemma MoveThenShadow(l: Layout, sha1: string, sha2: string, e: Entry, rest: seq<CommitOp>, allowed: CheckWrite)
    requires Laid(l) && allowed(l.d) && allowed(l.below)
    ensures StageOps(AfterPut(l, sha1, e), [MoveOf(l.x, l.d)] + ([PutOf(l.below, sha2)] + rest), allowed) ==
            StageOps(Shadowed(l, sha1, sha2, e), rest, allowed)
  {
    PutShadows(l, sha1, sha2, e, rest, allowed);
    MovePut(map[l.kept := e], map[], l.x, l.d, Entry("100644", sha1), PutOf(l.x, sha1), allowed);
    StageCons(AfterPut(l, sha1, e), MoveOf(l.x, l.d), [PutOf(l.below, sha2)] + rest, AfterMove(l, sha1, e), allowed);
  }

  lemma OpeningRuns(l: Layout, sha1: string, sha2: string, e: Entry, rest: seq<CommitOp>, allowed: CheckWrite)
    requires Laid(l) && allowed(l.x) && allowed(l.d) && allowed(l.below)
    ensures StageOps(Start(map[l.kept := e]), Opening(l, sha1, sha2, rest), allowed) == StageOps(Shadowed(l, sha1, sha2, e), rest, allowed)
  {
    MoveThenShadow(l, sha1, sha2, e, rest, allowed);
    PutBeside(map[l.kept := e], map[], l.x, sha1, allowed);
    StageCons(Start(map[l.kept := e]), PutOf(l.x, sha1), [MoveOf(l.x, l.d)] + ([PutOf(l.below, sha2)] + rest), AfterPut(l, sha1, e), allowed);
  }

  // -------------------------------------------------------- a dropped entry

  /** A place under d for kept to be moved to. */
  predicate Target(l: Layout, target: string) {
    Laid(l) && StrictlyUnder(target, l.d) && !Comparable(l.kept, target) && !Comparable(l.below, target)
  }

  function LosingRequest(l: Layout, target: string, sha1: string, sha2: string): seq<CommitOp> {
    Opening(l, sha1, sha2, [MoveOf(l.kept, target)] + [])
  }

  function LosingState(l: Layout, target: string, sha1: string, sha2: string, e: Entry): Staged {
    Staged(map[l.below := Entry("100644", sha2)][target := e], map[][l.d := PutOf(l.d, sha1)][l.below := PutOf(l.below, sha2)])
  }

  lemma LosingRuns(l: Layout, target: string, sha1: string, sha2: string, e: Entry, allowed: CheckWrite)
    requires Target(l, target) && allowed(l.x) && allowed(l.d) && allowed(l.below) && allowed(target)
    ensures StageOps(Start(map[l.kept := e]), LosingRequest(l, target, sha1, sha2), allowed) == Ok(LosingState(l, target, sha1, sha2, e))
  {
    OpeningRuns(l, sha1, sha2, e, [MoveOf(l.kept, target)] + [], allowed);
    KeptMoves(l, target, sha1, sha2, e, allowed);
  }

  lemma KeptMoves(l: Layout, target: string, sha1: string, sha2: string, e: Entry, allowed: CheckWrite)
    requires Target(l, target) && allowed(target)
    ensures StageOps(Shadowed(l, sha1, sha2, e), [MoveOf(l.kept, target)] + [], allowed) == Ok(LosingState(l, target, sha1, sha2, e))
  {
    var g := Entry("100644", sha2);
    MoveTreeFile(map[l.below := g], map[][l.d := PutOf(l.d, sha1)][l.below := PutOf(l.below, sha2)], l.kept, target, e, allowed);
    assert map[l.kept := e][l.below := g] == map[l.below := g][l.kept := e];
    StageCons(Shadowed(l, sha1, sha2, e), MoveOf(l.kept, target), [], LosingState(l, target, sha1, sha2, e), allowed);
  }

  /**
   * The no-shadowing hypothesis is needed: whenever the paths are laid out like this, every
   * operation of the request succeeds and its meaning keeps the moved entry at target, but the
   * tree it builds does not have it.
   */
  lemma {:induction false} ShadowedReplayLosesAnEntry(l: Layout, target: string, sha1: string, sha2: string, e: Entry,
                                                      allowed: CheckWrite, r: Result<Index>)
    requires Target(l, target) && allowed(l.x) && allowed(l.d) && allowed(l.below) && allowed(target)
    requires Builds(map[l.kept := e], LosingRequest(l, target, sha1, sha2), allowed, Cleaning(Untracked, None, map[]), r)
    ensures r.Ok? && target !in r.value
    ensures var meaning := RunOps(Trace(map[l.kept := e]), LosingRequest(l, target, sha1, sha2), allowed);
            meaning.Ok? && target in meaning.value && meaning.value[target].entry == e
    ensures !NoShadowing(Start(map[l.kept := e]), LosingRequest(l, target, sha1, sha2), allowed)
  {
    LosingRuns(l, target, sha1, sha2, e, allowed);
    UntrackedIsClean(LosingState(l, target, sha1, sha2, e));
    NothingBelowDeepest(LosingState(l, target, sha1, sha2, e), l.d, target, r);
    LosingMeans(l, target, LosingRequest(l, target, sha1, sha2), sha1, sha2, e, allowed);
  }

  lemma LosingMeans(l: Layout, target: string, ops: seq<CommitOp>, sha1: string, sha2: string, e: Entry, allowed: CheckWrite)
    requires Target(l, target) && StageOps(Start(map[l.kept := e]), ops, allowed) == Ok(LosingState(l, target, sha1, sha2, e))
    ensures var meaning := RunOps(Trace(map[l.kept := e]), ops, allowed);
            meaning.Ok? && target in meaning.value && meaning.value[target].entry == e
    ensures !NoShadowing(Start(map[l.kept := e]), ops, allowed)
  {
    var s := LosingState(l, target, sha1, sha2, e);
    StrictlyUnderAt(l.kept, l.kept);
    StagedEntryIsMeant(map[l.kept := e], ops, s, target, allowed);
    StaleIsShadowed(map[l.kept := e], ops, s, l.d, allowed);
  }

  /** The replay drops whatever lies below a pending path without being pending itself. */
  lemma NothingBelowDeepest(s: Staged, d: string, target: string, r: Result<Index>)
    requires d in s.pending && StrictlyUnder(target, d) && target !in s.pending
    requires r.Ok? ==> r.value == Overridden(s.index, CleanedEntries(Cleaning(Untracked, None, map[]), s))
    ensures r.Ok? ==> target !in r.value
  {
    var cleaned := CleanedEntries(Cleaning(Untracked, None, map[]), s);
    assert d in cleaned && target !in cleaned;
    assert !Survives(cleaned, target);
  }

  /** What staging leaves in the index is what the request means. */
  lemma StagedEntryIsMeant(tree: Index, ops: seq<CommitOp>, s: Staged, p: string, allowed: CheckWrite)
    requires PrefixFree(tree) && StageOps(Start(tree), ops, allowed) == Ok(s) && p in s.index
    ensures var meaning := RunOps(Trace(tree), ops, allowed);
            meaning.Ok? && p in meaning.value && meaning.value[p].entry == s.index[p]
  {
    StartAgrees(tree);
    RunAgrees(Start(tree), Trace(tree), ops, allowed);
    assert p in Forget(RunOps(Trace(tree), ops, allowed).value);
  }

  /** A run that leaves a put pending where nothing is has shadowed it. */
  lemma StaleIsShadowed(tree: Index, ops: seq<CommitOp>, s: Staged, d: string, allowed: CheckWrite)
    requires PrefixFree(tree) && StageOps(Start(tree), ops, allowed) == Ok(s) && d in s.pending && d !in s.index
    ensures !NoShadowing(Start(tree), ops, allowed)
  {
    StartAgrees(tree);
    RunAgrees(Start(tree), Trace(tree), ops, allowed);
    assert d !in Forget(RunOps(Trace(tree), ops, allowed).value);
    if NoShadowing(Start(tree), ops, allowed) {
      FinalPending(Start(tree), Trace(tree), ops, allowed);
      assert false;
    }
  }

  // ------------------------------------------------------ validated instances

  lemma PutsApart(l: Layout)
    requires Laid(l)
    ensures !Comparable(l.x, l.below)
  {
    if Under(l.below, l.x) {
      AncestorsComparable(l.below, l.x, l.d);
    }
    if Under(l.x, l.below) {
      UnderTransitive(l.x, l.below, l.d);
    }
  }

  /** The opening, followed by valid moves, is a valid request. */
  lemma OpeningIsValid(l: Layout, sha1: string, sha2: string, rest: seq<CommitOp>)
    requires Laid(l) && IsHexSHA(sha1) && IsHexSHA(sha2) && ValidPath(l.x) && ValidPath(l.d) && ValidPath(l.below)
    requires |rest| <= 3 && forall i :: 0 <= i < |rest| ==> ValidOp(rest[i]) && rest[i].IsMove()
    ensures ValidOps(Opening(l, sha1, sha2, rest))
  {
    PutsApart(l);
    PutIsValid(l.x, sha1);
    MoveIsValid(l.x, l.d);
    PutIsValid(l.below, sha2);
    TwoPutsValid(PutOf(l.x, sha1), MoveOf(l.x, l.d), PutOf(l.below, sha2), rest);
  }

  lemma TwoPutsValid(a: CommitOp, b: CommitOp, c: CommitOp, rest: seq<CommitOp>)
    requires ValidOp(a) && ValidOp(b) && ValidOp(c) && b.IsMove() && !Comparable(a.path, c.path)
    requires |rest| <= 3 && forall i :: 0 <= i < |rest| ==> ValidOp(rest[i]) && rest[i].IsMove()
    ensures ValidOps([a] + ([b] + ([c] + rest)))
  {
    var ops := [a] + ([b] + ([c] + rest));
    assert ops == [a, b, c] + rest;
    forall i | 0 <= i < |ops| ensures ValidOp(ops[i]) && (ops[i].IsMove() || i == 0 || i == 2) {
      if i >= 3 {
        assert ops[i] == rest[i - 3];
      }
    }
  }

  /** Files existing, x and a, and names b and c for two files under a. */
  predicate LosingNames(existing: string, x: string, a: string, b: string, c: string) {
    IsName(existing) && IsName(x) && IsName(a) && IsName(b) && IsName(c) && existing != x && existing != a && x != a && b != c
  }

  lemma NamesAreTarget(existing: string, x: string, a: string, b: string, c: string)
    requires LosingNames(existing, x, a, b, c)
    ensures Target(Layout(existing, x, a, a + "/" + b), a + "/" + c)
    ensures ValidPath(existing) && ValidPath(x) && ValidPath(a) && ValidPath(a + "/" + b) && ValidPath(a + "/" + c)
  {
    NameSegments(existing);
    NameSegments(x);
    NameSegments(a);
    ChildSegments(a, b);
    ChildSegments(a, c);
    NotUnderChild(a, b);
    DifferAt(existing, x, 0);
    DifferAt(existing, a, 0);
    DifferAt(existing, a + "/" + b, 0);
    DifferAt(existing, a + "/" + c, 0);
    DifferAt(x, a, 0);
    DifferAt(a + "/" + b, a + "/" + c, 1);
  }

  /** put x; move x to a; put a/b; move existing to a/c: valid for any names. */
  lemma ShadowingRequestIsValid(existing: string, x: string, a: string, b: string, c: string, sha1: string, sha2: string)
    requires LosingNames(existing, x, a, b, c) && IsHexSHA(sha1) && IsHexSHA(sha2)
    ensures ValidOps(LosingRequest(Layout(existing, x, a, a + "/" + b), a + "/" + c, sha1, sha2))
  {
    NamesAreTarget(existing, x, a, b, c);
    MoveIsValid(existing, a + "/" + c);
    OpeningIsValid(Layout(existing, x, a, a + "/" + b), sha1, sha2, [MoveOf(existing, a + "/" + c)] + []);
  }

  /**
   * A validated request that loses an entry: from a tree holding only existing, put x; move x to
   * a; put a/b; move existing to a/c.
   */
  lemma ValidatedRequestLosesAnEntry(existing: string, x: string, a: string, b: string, c: string, sha1: string, sha2: string, e: Entry,
                                     r: Result<Index>)
    requires LosingNames(existing, x, a, b, c) && IsHexSHA(sha1) && IsHexSHA(sha2)
    requires Builds(map[existing := e], LosingRequest(Layout(existing, x, a, a + "/" + b), a + "/" + c, sha1, sha2), path => true,
                    Cleaning(Untracked, None, map[]), r)
    ensures var ops := LosingRequest(Layout(existing, x, a, a + "/" + b), a + "/" + c, sha1, sha2);
            ValidOps(ops) && r.Ok? && a + "/" + c !in r.value &&
            var meaning := RunOps(Trace(map[existing := e]), ops, path => true);
            meaning.Ok? && a + "/" + c in meaning.value && meaning.value[a + "/" + c].entry == e
  {
    NamesAreTarget(existing, x, a, b, c);
    ShadowingRequestIsValid(existing, x, a, b, c, sha1, sha2);
    ShadowedReplayLosesAnEntry(Layout(existing, x, a, a + "/" + b), a + "/" + c, sha1, sha2, e, path => true, r);
  }
}
