/**
 * What a stale put can do once the put that shadowed it has been moved away: be re-keyed onto a
 * path the policy refuses, or come back over an entry that was moved there and back.
 */
module StalePuts {
  import opened Paths
  import opened Results
  import opened PathPolicy
  import opened GitIndex
  import opened GitIds
  import opened CommitOps
  import opened Staging
  import opened Replay
  import opened StagingMeaning
  import opened StagingTheorems
  import opened BlockedPaths
  import opened StagingSteps
  import opened Shadowing

  // --------------------------------------------------- how a put becomes stale

  /** A place for the put below d to be moved to, so that nothing is left at d or under it. */
  predicate Away(l: Layout, q: string) {
    Laid(l) && !Comparable(l.kept, q) && !Comparable(l.below, q) && !Comparable(l.d, q)
  }

  function Begin(l: Layout, q: string, sha1: string, sha2: string, rest: seq<CommitOp>): seq<CommitOp> {
    Opening(l, sha1, sha2, [MoveOf(l.below, q)] + rest)
  }

  function WithStale(l: Layout, q: string, sha1: string, sha2: string, e: Entry): Staged {
    Staged(map[l.kept := e][q := Entry("100644", sha2)], map[][l.d := PutOf(l.d, sha1)][q := PutOf(q, sha2)])
  }

  lemma ShadowGoesAway(l: Layout, q: string, sha1: string, sha2: string, e: Entry, rest: seq<CommitOp>, allowed: CheckWrite)
    requires Away(l, q) && allowed(q)
    ensures StageOps(Shadowed(l, sha1, sha2, e), [MoveOf(l.below, q)] + rest, allowed) ==
            StageOps(WithStale(l, q, sha1, sha2, e), rest, allowed)
  {
    MovePut(map[l.kept := e], map[][l.d := PutOf(l.d, sha1)], l.below, q, Entry("100644", sha2), PutOf(l.below, sha2), allowed);
    StageCons(Shadowed(l, sha1, sha2, e), MoveOf(l.below, q), rest, WithStale(l, q, sha1, sha2, e), allowed);
  }

  /** The first four operations leave a put pending at d although nothing is there. */
  lemma BecomesStale(l: Layout, q: string, sha1: string, sha2: string, e: Entry, rest: seq<CommitOp>, allowed: CheckWrite)
    requires Away(l, q) && allowed(l.x) && allowed(l.d) && allowed(l.below) && allowed(q)
    ensures StageOps(Start(map[l.kept := e]), Begin(l, q, sha1, sha2, rest), allowed) == StageOps(WithStale(l, q, sha1, sha2, e), rest, allowed)
  {
    OpeningRuns(l, sha1, sha2, e, [MoveOf(l.below, q)] + rest, allowed);
    ShadowGoesAway(l, q, sha1, sha2, e, rest, allowed);
  }

  lemma BeginIsValid(l: Layout, q: string, sha1: string, sha2: string, rest: seq<CommitOp>)
    requires Away(l, q) && IsHexSHA(sha1) && IsHexSHA(sha2) && ValidPath(l.x) && ValidPath(l.d) && ValidPath(l.below) && ValidPath(q)
    requires |rest| <= 2 && forall i :: 0 <= i < |rest| ==> ValidOp(rest[i]) && rest[i].IsMove()
    ensures ValidOps(Begin(l, q, sha1, sha2, rest))
  {
    MoveIsValid(l.below, q);
    OpeningIsValid(l, sha1, sha2, [MoveOf(l.below, q)] + rest);
  }

  /** The same state with the entries named in the other order. */
  lemma StaleSwapped(l: Layout, q: string, sha1: string, sha2: string, e: Entry)
    requires Away(l, q)
    ensures WithStale(l, q, sha1, sha2, e) ==
            Staged(map[q := Entry("100644", sha2)][l.kept := e], map[q := PutOf(q, sha2)][l.d := PutOf(l.d, sha1)])
  {
    var s := WithStale(l, q, sha1, sha2, e);
    assert s.index == map[q := Entry("100644", sha2)][l.kept := e];
    assert s.pending == map[q := PutOf(q, sha2)][l.d := PutOf(l.d, sha1)];
  }

  // ----------------------------------------------- a put at a refused path

  /** Both kept and the stale put lie under dir, which moves to dest. */
  predicate Rekeys(l: Layout, q: string, dir: string, dest: string) {
    Away(l, q) && dir != "" && StrictlyUnder(l.kept, dir) && StrictlyUnder(l.d, dir) && !Under(q, dir) &&
    !Comparable(l.kept, dest) && !Comparable(q, dest) &&
    Rebase(l.d, dir, dest) != q && Rebase(l.kept, dir, dest) != q && !StrictlyUnder(q, Rebase(l.d, dir, dest))
  }

  function Rekeyed(l: Layout, q: string, dir: string, dest: string, sha1: string, sha2: string, e: Entry): Staged {
    Staged(map[q := Entry("100644", sha2)][Rebase(l.kept, dir, dest) := e],
           map[q := PutOf(q, sha2)][Rebase(l.d, dir, dest) := PutOf(Rebase(l.d, dir, dest), sha1)])
  }

  lemma StaleRekeyed(l: Layout, q: string, dir: string, dest: string, sha1: string, sha2: string, e: Entry, allowed: CheckWrite)
    requires Rekeys(l, q, dir, dest) && allowed(Rebase(l.kept, dir, dest))
    ensures StageOps(WithStale(l, q, sha1, sha2, e), [MoveOf(dir, dest)] + [], allowed) == Ok(Rekeyed(l, q, dir, dest, sha1, sha2, e))
  {
    DirMoves(l, q, dir, dest, sha1, sha2, e, allowed);
    StageCons(WithStale(l, q, sha1, sha2, e), MoveOf(dir, dest), [], Rekeyed(l, q, dir, dest, sha1, sha2, e), allowed);
  }

  lemma DirMoves(l: Layout, q: string, dir: string, dest: string, sha1: string, sha2: string, e: Entry, allowed: CheckWrite)
    requires Rekeys(l, q, dir, dest) && allowed(Rebase(l.kept, dir, dest))
    ensures StageOp(WithStale(l, q, sha1, sha2, e), MoveOf(dir, dest), allowed) == Ok(Rekeyed(l, q, dir, dest, sha1, sha2, e))
  {
    var g := Entry("100644", sha2);
    MoveDir(map[q := g], map[q := PutOf(q, sha2)], dir, dest, l.kept, e, l.d, PutOf(l.d, sha1), allowed);
    StaleSwapped(l, q, sha1, sha2, e);
  }

  lemma RekeyRuns(l: Layout, q: string, dir: string, dest: string, sha1: string, sha2: string, e: Entry, allowed: CheckWrite)
    requires Rekeys(l, q, dir, dest)
    requires allowed(l.x) && allowed(l.d) && allowed(l.below) && allowed(q) && allowed(Rebase(l.kept, dir, dest))
    ensures StageOps(Start(map[l.kept := e]), Begin(l, q, sha1, sha2, [MoveOf(dir, dest)] + []), allowed) ==
            Ok(Rekeyed(l, q, dir, dest, sha1, sha2, e))
  {
    BecomesStale(l, q, sha1, sha2, e, [MoveOf(dir, dest)] + [], allowed);
    StaleRekeyed(l, q, dir, dest, sha1, sha2, e, allowed);
  }

  lemma RekeyedIsDeepest(l: Layout, q: string, dir: string, dest: string, sha1: string, sha2: string, e: Entry)
    requires Rekeys(l, q, dir, dest)
    ensures var s, dx := Rekeyed(l, q, dir, dest, sha1, sha2, e), Rebase(l.d, dir, dest);
            dx in s.pending && EntryOf(s.pending[dx]) == Entry("100644", sha1) &&
            forall p :: p in s.pending ==> !StrictlyUnder(p, dx)
  {
    StrictlyUnderAt(Rebase(l.d, dir, dest), Rebase(l.d, dir, dest));
  }

  /** The tree built holds the re-keyed put, although the policy was never asked about its path. */
  lemma {:induction false} RekeyedPutIsWritten(l: Layout, q: string, dir: string, dest: string, sha1: string, sha2: string, e: Entry,
                                               allowed: CheckWrite, r: Result<Index>)
    requires Rekeys(l, q, dir, dest)
    requires allowed(l.x) && allowed(l.d) && allowed(l.below) && allowed(q) && allowed(Rebase(l.kept, dir, dest))
    requires Builds(map[l.kept := e], Begin(l, q, sha1, sha2, [MoveOf(dir, dest)] + []), allowed, Cleaning(Untracked, None, map[]), r)
    ensures r.Ok? && Rebase(l.d, dir, dest) in r.value && r.value[Rebase(l.d, dir, dest)] == Entry("100644", sha1)
  {
    RekeyRuns(l, q, dir, dest, sha1, sha2, e, allowed);
    RekeyedIsDeepest(l, q, dir, dest, sha1, sha2, e);
    UntrackedIsClean(Rekeyed(l, q, dir, dest, sha1, sha2, e));
    DeepestIsWritten(Rekeyed(l, q, dir, dest, sha1, sha2, e), Rebase(l.d, dir, dest), r);
  }

  /** Names for put p; move p to a/x; put a/x/y; move a/x/y to q; move a to dest, from a tree holding a/z. */
  datatype Names = Names(p: string, a: string, x: string, y: string, z: string, q: string, dest: string) {
    predicate Distinct() {
      IsName(p) && IsName(a) && IsName(x) && IsName(y) && IsName(z) && IsName(q) && IsName(dest) &&
      p != a && p != q && p != dest && a != q && a != dest && q != dest && x != z
    }

    function Paths(): Layout {
      Layout(a + "/" + z, p, a + "/" + x, a + "/" + x + "/" + y)
    }

    /** The path no one asks the policy about. */
    function Refused(): string {
      dest + "/" + x
    }
  }

  lemma NamedSegments(n: Names)
    requires n.Distinct()
    ensures var l := n.Paths();
            Segments(l.kept) == [n.a, n.z] && Segments(l.x) == [n.p] && Segments(l.d) == [n.a, n.x] &&
            Segments(l.below) == [n.a, n.x, n.y] && Segments(n.q) == [n.q] && Segments(n.dest) == [n.dest] && Segments(n.a) == [n.a] &&
            ValidPath(l.x) && ValidPath(l.d) && ValidPath(l.below) && ValidPath(n.q) && ValidPath(n.a) && ValidPath(n.dest)
    ensures StrictlyUnder(n.Paths().kept, n.a) && StrictlyUnder(n.Paths().d, n.a) && StrictlyUnder(n.Paths().below, n.Paths().d)
  {
    NameSegments(n.p);
    NameSegments(n.q);
    NameSegments(n.a);
    NameSegments(n.dest);
    ChildSegments(n.a, n.z);
    ChildSegments(n.a, n.x);
    ChildSegments(n.a + "/" + n.x, n.y);
  }

  lemma NamedAway(n: Names)
    requires n.Distinct()
    ensures Away(n.Paths(), n.q)
  {
    var l := n.Paths();
    NamedSegments(n);
    DifferAt(l.kept, l.x, 0);
    DifferAt(l.kept, l.d, 1);
    DifferAt(l.kept, l.below, 1);
    DifferAt(l.x, l.d, 0);
    NotUnderChild(l.d, n.y);
    DifferAt(l.kept, n.q, 0);
    DifferAt(l.below, n.q, 0);
    DifferAt(l.d, n.q, 0);
  }

  lemma NamedTargets(n: Names)
    requires n.Distinct()
    ensures Rebase(n.Paths().kept, n.a, n.dest) == n.dest + "/" + n.z && Rebase(n.Paths().d, n.a, n.dest) == n.Refused()
    ensures Segments(n.Refused()) == [n.dest, n.x] && Segments(n.dest + "/" + n.z) == [n.dest, n.z]
  {
    NameSegments(n.dest);
    RebaseChild(n.a, n.dest, n.z);
    RebaseChild(n.a, n.dest, n.x);
    ChildSegments(n.dest, n.z);
    ChildSegments(n.dest, n.x);
  }

  lemma RebaseChild(a: string, b: string, name: string)
    ensures Rebase(a + "/" + name, a, b) == b + "/" + name
  {
    assert a + "/" + name == a + ("/" + name) && b + "/" + name == b + ("/" + name);
    assert (a + ("/" + name))[|a|..] == "/" + name;
  }

  lemma NamedRekeys(n: Names)
    requires n.Distinct()
    ensures Rekeys(n.Paths(), n.q, n.a, n.dest)
  {
    NamedSegments(n);
    NamedAway(n);
    NamedTargets(n);
    DifferAt(n.q, n.a, 0);
    DifferAt(n.Paths().kept, n.dest, 0);
    DifferAt(n.q, n.dest, 0);
    DifferAt(n.q, n.Refused(), 0);
    DifferAt(n.q, n.dest + "/" + n.z, 0);
  }

  /** Of all paths involved only the refused one is blocked. */
  lemma NamedPermitted(n: Names)
    requires n.Distinct()
    ensures var l := n.Paths();
            !Blocked([n.Refused()], l.x) && !Blocked([n.Refused()], l.d) && !Blocked([n.Refused()], l.below) &&
            !Blocked([n.Refused()], n.q) && !Blocked([n.Refused()], n.dest + "/" + n.z)
    ensures Blocked([n.Refused()], n.Refused()) && n.Refused() != n.Paths().kept
  {
    var l := n.Paths();
    NamedSegments(n);
    NamedTargets(n);
    DifferAt(l.x, n.Refused(), 0);
    DifferAt(l.d, n.Refused(), 0);
    DifferAt(l.below, n.Refused(), 0);
    DifferAt(n.q, n.Refused(), 0);
    DifferAt(n.dest + "/" + n.z, n.Refused(), 1);
    DifferAt(l.kept, n.Refused(), 0);
    assert Under(n.Refused(), [n.Refused()][0]);
  }

  function RekeyRequest(n: Names, sha1: string, sha2: string): seq<CommitOp> {
    Begin(n.Paths(), n.q, sha1, sha2, [MoveOf(n.a, n.dest)] + [])
  }

  lemma RekeyIsValid(n: Names, sha1: string, sha2: string)
    requires n.Distinct() && IsHexSHA(sha1) && IsHexSHA(sha2)
    ensures ValidOps(RekeyRequest(n, sha1, sha2))
  {
    NamedSegments(n);
    NamedAway(n);
    DifferAt(n.dest, n.a, 0);
    MoveIsValid(n.a, n.dest);
    BeginIsValid(n.Paths(), n.q, sha1, sha2, [MoveOf(n.a, n.dest)] + []);
  }

  /**
   * The guard on moves is needed: from a tree holding only a/z, the request put p; move p to a/x;
   * put a/x/y; move a/x/y to q; move a to dest is valid and succeeds under a policy that blocks
   * dest/x, and the tree it builds has dest/x although the old one had not.
   */
  lemma {:induction false} PolicyMissesRekeyedPut(n: Names, sha1: string, sha2: string, e: Entry, r: Result<Index>)
    requires n.Distinct() && IsHexSHA(sha1) && IsHexSHA(sha2)
    requires Builds(map[n.Paths().kept := e], RekeyRequest(n, sha1, sha2), path => !Blocked([n.Refused()], path),
                    Cleaning(Untracked, None, map[]), r)
    ensures ValidOps(RekeyRequest(n, sha1, sha2))
    ensures r.Ok? && n.Refused() in r.value && Blocked([n.Refused()], n.Refused()) && n.Refused() !in map[n.Paths().kept := e]
    ensures !PendingMovesPermitted(Start(map[n.Paths().kept := e]), RekeyRequest(n, sha1, sha2), path => !Blocked([n.Refused()], path))
  {
    var tree := map[n.Paths().kept := e];
    RekeyIsValid(n, sha1, sha2);
    NamedRekeys(n);
    NamedTargets(n);
    NamedPermitted(n);
    RekeyedPutIsWritten(n.Paths(), n.q, n.a, n.dest, sha1, sha2, e, path => !Blocked([n.Refused()], path), r);
    StrictlyUnderAt(n.Paths().kept, n.Paths().kept);
    if PendingMovesPermitted(Start(tree), RekeyRequest(n, sha1, sha2), path => !Blocked([n.Refused()], path)) {
      BuildKeepsBlockedPaths(tree, RekeyRequest(n, sha1, sha2), [n.Refused()], Cleaning(Untracked, None, map[]), r);
      assert false;
    }
  }

  // -------------------------------------------------------------- there and back

  function ThereAndBack(l: Layout): seq<CommitOp> {
    [MoveOf(l.kept, l.d)] + ([MoveOf(l.d, l.kept)] + [])
  }

  function There(l: Layout, q: string, sha1: string, sha2: string, e: Entry): Staged {
    Staged(map[q := Entry("100644", sha2)][l.d := e], map[q := PutOf(q, sha2)][l.d := PutOf(l.d, sha1)])
  }

  /** The state after the way back: the index is as before, the stale put is at kept. */
  function Returned(l: Layout, q: string, sha1: string, sha2: string, e: Entry): Staged {
    Staged(map[q := Entry("100644", sha2)][l.kept := e], map[q := PutOf(q, sha2)][l.kept := PutOf(l.kept, sha1)])
  }

  lemma GoesThere(l: Layout, q: string, sha1: string, sha2: string, e: Entry, allowed: CheckWrite)
    requires Away(l, q) && allowed(l.d)
    ensures StageOp(WithStale(l, q, sha1, sha2, e), MoveOf(l.kept, l.d), allowed) == Ok(There(l, q, sha1, sha2, e))
  {
    MoveTreeFile(map[q := Entry("100644", sha2)], map[q := PutOf(q, sha2)][l.d := PutOf(l.d, sha1)], l.kept, l.d, e, allowed);
    StaleSwapped(l, q, sha1, sha2, e);
  }

  lemma ComesBack(l: Layout, q: string, sha1: string, sha2: string, e: Entry, allowed: CheckWrite)
    requires Away(l, q) && l.d != "" && allowed(l.kept)
    ensures StageOp(There(l, q, sha1, sha2, e), MoveOf(l.d, l.kept), allowed) == Ok(Returned(l, q, sha1, sha2, e))
  {
    MovePut(map[q := Entry("100644", sha2)], map[q := PutOf(q, sha2)], l.d, l.kept, e, PutOf(l.d, sha1), allowed);
  }

  lemma RunsThereAndBack(l: Layout, q: string, sha1: string, sha2: string, e: Entry, allowed: CheckWrite)
    requires Away(l, q) && l.d != "" && allowed(l.d) && allowed(l.kept)
    ensures StageOps(WithStale(l, q, sha1, sha2, e), ThereAndBack(l), allowed) == Ok(Returned(l, q, sha1, sha2, e))
  {
    GoesThere(l, q, sha1, sha2, e, allowed);
    ComesBack(l, q, sha1, sha2, e, allowed);
    StageCons(There(l, q, sha1, sha2, e), MoveOf(l.d, l.kept), [], Returned(l, q, sha1, sha2, e), allowed);
    StageCons(WithStale(l, q, sha1, sha2, e), MoveOf(l.kept, l.d), [MoveOf(l.d, l.kept)] + [], There(l, q, sha1, sha2, e), allowed);
  }

  lemma ReturnedDiffers(l: Layout, q: string, sha1: string, sha2: string, e: Entry)
    requires Away(l, q)
    ensures Returned(l, q, sha1, sha2, e).index == WithStale(l, q, sha1, sha2, e).index
    ensures Returned(l, q, sha1, sha2, e).pending != WithStale(l, q, sha1, sha2, e).pending
  {
    assert l.kept in Returned(l, q, sha1, sha2, e).pending && l.kept !in WithStale(l, q, sha1, sha2, e).pending;
  }

  /**
   * A state the code reaches from which a move there and back does not restore the pending puts:
   * the index comes back, the stale put does not.
   */
  lemma {:induction false} MoveBackForgets(l: Layout, q: string, sha1: string, sha2: string, e: Entry, allowed: CheckWrite)
    requires Away(l, q) && l.d != "" && allowed(l.x) && allowed(l.d) && allowed(l.below) && allowed(q) && allowed(l.kept)
    ensures StageOps(Start(map[l.kept := e]), Begin(l, q, sha1, sha2, []), allowed) == Ok(WithStale(l, q, sha1, sha2, e))
    ensures StageMove(WithStale(l, q, sha1, sha2, e), l.kept, l.d, allowed) == Ok(There(l, q, sha1, sha2, e))
    ensures StageMove(There(l, q, sha1, sha2, e), l.d, l.kept, allowed) == Ok(Returned(l, q, sha1, sha2, e))
    ensures Returned(l, q, sha1, sha2, e).index == WithStale(l, q, sha1, sha2, e).index
    ensures Returned(l, q, sha1, sha2, e).pending != WithStale(l, q, sha1, sha2, e).pending
  {
    BecomesStale(l, q, sha1, sha2, e, [], allowed);
    GoesThere(l, q, sha1, sha2, e, allowed);
    ComesBack(l, q, sha1, sha2, e, allowed);
    ReturnedDiffers(l, q, sha1, sha2, e);
  }

  /** The tree built then has the stale put where the meaning keeps the entry that was moved. */
  lemma {:induction false} MoveBackLosesAnEntry(l: Layout, q: string, sha1: string, sha2: string, e: Entry, allowed: CheckWrite, r: Result<Index>)
    requires Away(l, q) && l.d != "" && allowed(l.x) && allowed(l.d) && allowed(l.below) && allowed(q) && allowed(l.kept)
    requires Builds(map[l.kept := e], Begin(l, q, sha1, sha2, ThereAndBack(l)), allowed, Cleaning(Untracked, None, map[]), r)
    ensures r.Ok? && l.kept in r.value && r.value[l.kept] == Entry("100644", sha1)
    ensures var meaning := RunOps(Trace(map[l.kept := e]), Begin(l, q, sha1, sha2, ThereAndBack(l)), allowed);
            meaning.Ok? && l.kept in meaning.value && meaning.value[l.kept].entry == e
  {
    BecomesStale(l, q, sha1, sha2, e, ThereAndBack(l), allowed);
    RunsThereAndBack(l, q, sha1, sha2, e, allowed);
    StrictlyUnderAt(l.kept, l.kept);
    UntrackedIsClean(Returned(l, q, sha1, sha2, e));
    DeepestIsWritten(Returned(l, q, sha1, sha2, e), l.kept, r);
    StagedEntryIsMeant(map[l.kept := e], Begin(l, q, sha1, sha2, ThereAndBack(l)), Returned(l, q, sha1, sha2, e), l.kept, allowed);
  }

  /** put x; move x to a; put a/b; move a/b to c; move existing to a; move a to existing: valid for any names. */
  lemma {:induction false} ThereAndBackIsValid(existing: string, x: string, a: string, b: string, c: string, sha1: string, sha2: string)
    requires IsName(existing) && IsName(x) && IsName(a) && IsName(b) && IsName(c) && IsHexSHA(sha1) && IsHexSHA(sha2)
    requires existing != x && existing != a && existing != c && x != a && x != c && a != c
    ensures var l := Layout(existing, x, a, a + "/" + b);
            Away(l, c) && l.d != "" && ValidOps(Begin(l, c, sha1, sha2, ThereAndBack(l)))
  {
    var l := Layout(existing, x, a, a + "/" + b);
    NameSegments(existing);
    NameSegments(x);
    NameSegments(a);
    NameSegments(c);
    ChildSegments(a, b);
    NotUnderChild(a, b);
    DifferAt(existing, x, 0);
    DifferAt(existing, a, 0);
    DifferAt(existing, l.below, 0);
    DifferAt(existing, c, 0);
    DifferAt(x, a, 0);
    DifferAt(l.below, c, 0);
    DifferAt(a, c, 0);
    MoveIsValid(existing, a);
    MoveIsValid(a, existing);
    BeginIsValid(l, c, sha1, sha2, ThereAndBack(l));
  }
}
