/** The last write of a commit: the surviving puts, cleaned, replayed over the staged index. */
module Replay {
  import opened Paths
  import opened Results
  import opened GitIndex
  import opened CommitOps
  import opened StringOrder
  import opened Staging

  /** The index with puts replayed over it: the deepest puts, and what is comparable with none. */
  function Overridden(index: Index, puts: Index): Index {
    map q | q in index.Keys + puts.Keys && Survives(puts, q) :: if q in puts then puts[q] else index[q]
  }

  predicate Survives(puts: Index, q: string) {
    forall r :: r in puts ==> !StrictlyUnder(r, q) && (q in puts || !StrictlyUnder(q, r))
  }

  function PutEntries(ops: seq<CommitOp>): Index {
    if ops == [] then map[] else PutEntries(ops[..|ops| - 1])[ops[|ops| - 1].path := EntryOf(ops[|ops| - 1])]
  }

  lemma {:induction false} PutEntriesAt(ops: seq<CommitOp>)
    requires forall i, j :: 0 <= i < j < |ops| ==> ops[i].path != ops[j].path
    ensures forall q :: q in PutEntries(ops) <==> q in OpPaths(ops)
    ensures forall i :: 0 <= i < |ops| ==> ops[i].path in PutEntries(ops) && PutEntries(ops)[ops[i].path] == EntryOf(ops[i])
  {
    if ops != [] {
      var init, last := ops[..|ops| - 1], ops[|ops| - 1];
      PutEntriesAt(init);
      assert OpPaths(ops) == OpPaths(init) + [last.path];
      forall i | 0 <= i < |ops|
        ensures ops[i].path in PutEntries(ops) && PutEntries(ops)[ops[i].path] == EntryOf(ops[i])
      {
        if i < |init| {
          assert init[i] == ops[i];
        }
      }
    }
  }

  /** Replaying puts with directories first, whatever they hit, gives the overridden index. */
  lemma {:induction false} ReplayClosedForm(index: Index, ops: seq<CommitOp>)
    requires forall i :: 0 <= i < |ops| ==> !ops[i].delete
    requires forall i, j :: 0 <= i < j < |ops| ==> ops[i].path != ops[j].path && !StrictlyUnder(ops[i].path, ops[j].path)
    ensures ApplyLines(index, ops) == Overridden(index, PutEntries(ops))
  {
    if ops == [] {
      assert Overridden(index, map[]) == index;
    } else {
      var init, last := ops[..|ops| - 1], ops[|ops| - 1];
      ReplayClosedForm(index, init);
      PutEntriesAt(init);
      assert forall q :: q in PutEntries(init) ==> q != last.path && !StrictlyUnder(q, last.path) by {
        forall q | q in PutEntries(init) ensures q != last.path && !StrictlyUnder(q, last.path) {
          var i :| 0 <= i < |init| && OpPaths(init)[i] == q;
          assert ops[i].path == q;
        }
      }
      OverriddenStep(index, PutEntries(init), last.path, EntryOf(last));
    }
  }

  lemma OverriddenStep(index: Index, puts: Index, path: string, e: Entry)
    requires forall q :: q in puts ==> q != path && !StrictlyUnder(q, path)
    ensures Put(Overridden(index, puts), path, e) == Overridden(index, puts[path := e])
  {
    var left, right := Put(Overridden(index, puts), path, e), Overridden(index, puts[path := e]);
    forall q ensures SameAt(left, right, q) {
      OverriddenStepAt(index, puts, path, e, q);
    }
    SameMap(left, right);
  }

  lemma OverriddenStepAt(index: Index, puts: Index, path: string, e: Entry, q: string)
    requires forall q :: q in puts ==> q != path && !StrictlyUnder(q, path)
    ensures SameAt(Put(Overridden(index, puts), path, e), Overridden(index, puts[path := e]), q)
  {
    if q == path {
      StrictlyUnderAt(path, path);
      assert Survives(puts[path := e], path);
    } else {
      SurvivesStep(puts, path, e, q);
    }
  }

  lemma SurvivesStep(puts: Index, path: string, e: Entry, q: string)
    requires forall q :: q in puts ==> q != path && !StrictlyUnder(q, path)
    requires q != path
    ensures Survives(puts[path := e], q) <==> Survives(puts, q) && !StrictlyUnder(path, q) && !StrictlyUnder(q, path)
  {
  }

  /** The entries the pending puts stand for once cleaned. */
  function CleanedEntries(c: Cleaning, s: Staged): Index {
    map p | p in s.pending && c.Cleaned(s.index, s.pending[p]).Ok? :: EntryOf(c.Cleaned(s.index, s.pending[p]).value)
  }

  /** The first pending put in path order that cannot be cleaned, and its error. */
  ghost predicate FailsFirst(c: Cleaning, s: Staged, p: string, e: Error) {
    p in s.pending && c.Cleaned(s.index, s.pending[p]) == Err(e) &&
    forall q :: q in s.pending && Less(q, p) ==> c.Cleaned(s.index, s.pending[q]).Ok?
  }

  /** How a tree, a validated request and the clean pass determine the new tree or a failure. */
  ghost predicate Builds(tree: Index, ops: seq<CommitOp>, allowed: CheckWrite, c: Cleaning, r: Result<Index>) {
    match StageOps(Staged(tree, map[]), ops, allowed)
    case Err(e) => r == Err(e)
    case Ok(s) =>
      (r.Ok? <==> forall p :: p in s.pending ==> c.Cleaned(s.index, s.pending[p]).Ok?) &&
      (r.Ok? ==> r.value == Overridden(s.index, CleanedEntries(c, s)) && PrefixFree(r.value)) &&
      (r.Err? ==> exists p :: FailsFirst(c, s, p, r.error))
  }

  /** Path order puts directories before what lies in them. */
  lemma PutListOrder(puts: seq<CommitOp>, pending: PendingPuts)
    requires IsPutList(puts, pending)
    ensures forall i, j :: 0 <= i < j < |puts| ==> puts[i].path != puts[j].path && !StrictlyUnder(puts[i].path, puts[j].path)
  {
    forall i, j | 0 <= i < j < |puts| ensures puts[i].path != puts[j].path && !StrictlyUnder(puts[i].path, puts[j].path) {
      assert Less(OpPaths(puts)[i], OpPaths(puts)[j]);
      LessTotal(puts[i].path, puts[j].path);
      if StrictlyUnder(puts[i].path, puts[j].path) {
        StrictlyUnderAt(puts[i].path, puts[j].path);
        PrefixLess(puts[j].path, puts[i].path);
      }
    }
  }

  lemma CleanedListEntries(c: Cleaning, s: Staged, puts: seq<CommitOp>, cleaned: seq<CommitOp>)
    requires IsPutList(puts, s.pending) && |cleaned| == |puts|
    requires forall i :: 0 <= i < |puts| ==> c.Cleaned(s.index, puts[i]) == Ok(cleaned[i])
    ensures forall i :: 0 <= i < |puts| ==> cleaned[i].path == puts[i].path && cleaned[i].delete == puts[i].delete
    ensures PutEntries(cleaned) == CleanedEntries(c, s)
  {
    PutListOrder(puts, s.pending);
    CleanedKeepsPaths(c, s.index, puts, cleaned);
    PutEntriesAt(cleaned);
    forall q ensures SameAt(PutEntries(cleaned), CleanedEntries(c, s), q) {
      if q in OpPaths(puts) {
        var i :| 0 <= i < |puts| && OpPaths(puts)[i] == q;
        CleanedListAt(c, s, puts, cleaned, i);
      } else {
        assert q !in s.pending;
      }
    }
    SameMap(PutEntries(cleaned), CleanedEntries(c, s));
  }

  lemma CleanedKeepsPaths(c: Cleaning, index: Index, puts: seq<CommitOp>, cleaned: seq<CommitOp>)
    requires |cleaned| == |puts|
    requires forall i :: 0 <= i < |puts| ==> c.Cleaned(index, puts[i]) == Ok(cleaned[i])
    ensures forall i :: 0 <= i < |puts| ==> cleaned[i].path == puts[i].path && cleaned[i].delete == puts[i].delete
    ensures OpPaths(cleaned) == OpPaths(puts)
  {
  }

  lemma CleanedListAt(c: Cleaning, s: Staged, puts: seq<CommitOp>, cleaned: seq<CommitOp>, i: nat)
    requires IsPutList(puts, s.pending) && |cleaned| == |puts| && i < |puts|
    requires c.Cleaned(s.index, puts[i]) == Ok(cleaned[i])
    ensures puts[i].path in CleanedEntries(c, s) && CleanedEntries(c, s)[puts[i].path] == EntryOf(cleaned[i])
  {
  }

  /** stageCommitOps, cleanLFSTracked and the final updateIndex, on one private index. */
  method BuildTree(tree: Index, ops: seq<CommitOp>, allowed: CheckWrite, c: Cleaning) returns (r: Result<Index>)
    requires PrefixFree(tree)
    ensures Builds(tree, ops, allowed, c, r)
    ensures r.Ok? ==> PrefixFree(r.value)
  {
    var area := new StagingArea(tree);
    var staged := area.StageCommitOps(ops, allowed);
    if staged.Err? {
      return Err(staged.error);
    }
    ghost var s := area.State();
    var puts := staged.value;
    var cleaned := area.CleanLFSTracked(puts, c);
    PutsCoverPending(c, s, puts);
    if cleaned.Err? {
      ghost var i :| 0 <= i < |puts| && c.Cleaned(s.index, puts[i]) == Err(cleaned.error) &&
                     forall j :: 0 <= j < i ==> c.Cleaned(s.index, puts[j]).Ok?;
      FirstFailure(c, s, puts, i);
      return Err(cleaned.error);
    }
    CleanedListEntries(c, s, puts, cleaned.value);
    PutListOrder(puts, s.pending);
    ReplayClosedForm(s.index, cleaned.value);
    area.UpdateIndex(cleaned.value);
    return Ok(area.index);
  }

  lemma EarlierPut(puts: seq<CommitOp>, pending: PendingPuts, i: nat, j: nat)
    requires IsPutList(puts, pending) && i < |puts| && j < |puts| && Less(puts[j].path, puts[i].path)
    ensures j < i
  {
    var paths := OpPaths(puts);
    LessTotal(paths[i], paths[j]);
    assert !Less(paths[i], paths[j]) && paths[i] != paths[j];
  }

  lemma FirstFailure(c: Cleaning, s: Staged, puts: seq<CommitOp>, i: nat)
    requires IsPutList(puts, s.pending) && i < |puts| && c.Cleaned(s.index, puts[i]).Err?
    requires forall j :: 0 <= j < i ==> c.Cleaned(s.index, puts[j]).Ok?
    ensures FailsFirst(c, s, puts[i].path, c.Cleaned(s.index, puts[i]).error)
  {
    forall q | q in s.pending && Less(q, puts[i].path) ensures c.Cleaned(s.index, s.pending[q]).Ok? {
      assert q in OpPaths(puts);
      var j :| 0 <= j < |puts| && OpPaths(puts)[j] == q;
      EarlierPut(puts, s.pending, i, j);
    }
  }

  lemma PutsCoverPending(c: Cleaning, s: Staged, puts: seq<CommitOp>)
    requires IsPutList(puts, s.pending)
    ensures (forall i :: 0 <= i < |puts| ==> c.Cleaned(s.index, puts[i]).Ok?) <==>
            forall p :: p in s.pending ==> c.Cleaned(s.index, s.pending[p]).Ok?
  {
  }
}
