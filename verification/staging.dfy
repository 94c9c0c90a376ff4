/**
 * Staging a commit request: the operations run one by one against a private index, while a
 * map of pending puts follows every explicit put through the moves after it.
 */
module Staging {
  import opened Paths
  import opened Results
  import opened GitIndex
  import opened CommitOps
  import opened GitIds
  import opened StringOrder

  type PendingPuts = map<string, CommitOp>

  datatype Staged = Staged(index: Index, pending: PendingPuts)

  /** The policy check of a write; the nil check permits everything. */
  type CheckWrite = string -> bool

  function EntryOf(op: CommitOp): Entry {
    Entry(op.mode, op.blobSHA)
  }

  /** Every pending put is keyed by its path. */
  ghost predicate WellKeyed(pending: PendingPuts) {
    forall p :: p in pending ==> pending[p].IsPut() && pending[p].path == p
  }

  // ----------------------------------------------- what one operation does

  /** Pending puts after a move: those under from are re-keyed and win over what they meet. */
  function MovePending(pending: PendingPuts, from: string, destination: string): PendingPuts {
    Without(pending, from) + MovedPuts(pending, from, destination)
  }

  function MovedPuts(pending: PendingPuts, from: string, destination: string): PendingPuts {
    var moved := Moved(pending, from, destination);
    map t | t in moved :: moved[t].(path := t)
  }

  function StageMove(s: Staged, from: string, destination: string, allowed: CheckWrite): Result<Staged> {
    if Listing(s.index, from) == {} then Err(PathNotFound)
    else if Listing(s.index, destination) != {} || ParentOccupied(s.index, destination) then Err(PathExists)
    else if exists q :: q in Listing(s.index, from) && !allowed(Rebase(q, from, destination)) then Err(PathBlocked)
    else Ok(Staged(Relabel(s.index, from, destination), MovePending(s.pending, from, destination)))
  }

  function StageOp(s: Staged, op: CommitOp, allowed: CheckWrite): Result<Staged> {
    if op.IsMove() then StageMove(s, op.moveFrom, op.path, allowed)
    else if op.IsDelete() then
      if Listing(s.index, op.path) == {} then Err(PathNotFound)
      else Ok(Staged(Without(s.index, op.path), Without(s.pending, op.path)))
    else if !allowed(op.path) then Err(PathBlocked)
    else Ok(Staged(Put(s.index, op.path, EntryOf(op)), Without(s.pending, op.path)[op.path := op]))
  }

  function StageOps(s: Staged, ops: seq<CommitOp>, allowed: CheckWrite): Result<Staged>
    decreases ops
  {
    if ops == [] then Ok(s)
    else match StageOp(s, ops[0], allowed)
      case Err(e) => Err(e)
      case Ok(next) => StageOps(next, ops[1..], allowed)
  }

  lemma StageOpsFrom(s: Staged, ops: seq<CommitOp>, i: nat, allowed: CheckWrite)
    requires i < |ops|
    ensures StageOps(s, ops[i..], allowed) ==
            match StageOp(s, ops[i], allowed)
            case Err(e) => Err(e)
            case Ok(next) => StageOps(next, ops[i + 1..], allowed)
  {
  }

  // ------------------------------------------- lines of update-index input

  function ApplyLine(index: Index, op: CommitOp): Index {
    if op.delete then index - {op.path} else Put(index, op.path, EntryOf(op))
  }

  function ApplyLines(index: Index, ops: seq<CommitOp>): Index {
    if ops == [] then index
    else ApplyLine(ApplyLines(index, ops[..|ops| - 1]), ops[|ops| - 1])
  }

  function OpPaths(ops: seq<CommitOp>): seq<string> {
    seq(|ops|, i requires 0 <= i < |ops| => ops[i].path)
  }

  lemma {:induction false} ApplyLinesPrefixFree(index: Index, ops: seq<CommitOp>)
    requires PrefixFree(index)
    ensures PrefixFree(ApplyLines(index, ops))
  {
    if ops != [] {
      var before := ApplyLines(index, ops[..|ops| - 1]);
      ApplyLinesPrefixFree(index, ops[..|ops| - 1]);
      if !ops[|ops| - 1].delete {
        PutPrefixFree(before, ops[|ops| - 1].path, EntryOf(ops[|ops| - 1]));
      }
    }
  }

  lemma {:induction false} DeleteLines(index: Index, ops: seq<CommitOp>)
    requires forall i :: 0 <= i < |ops| ==> ops[i].delete
    ensures ApplyLines(index, ops) == map q | q in index && q !in OpPaths(ops) :: index[q]
  {
    if ops != [] {
      var init, last := ops[..|ops| - 1], ops[|ops| - 1];
      DeleteLines(index, init);
      assert OpPaths(ops) == OpPaths(init) + [last.path];
    }
  }

  lemma {:induction false} ApplyLinesConcat(index: Index, a: seq<CommitOp>, b: seq<CommitOp>)
    ensures ApplyLines(index, a + b) == ApplyLines(ApplyLines(index, a), b)
  {
    if b == [] {
      assert a + b == a;
    } else {
      var init := b[..|b| - 1];
      ApplyLinesConcat(index, a, init);
      assert (a + b)[..|a + b| - 1] == a + init;
    }
  }

  /** Adding lines at paths nothing is comparable with: the replace rule never fires. */
  lemma {:induction false} FreshLines(index: Index, ops: seq<CommitOp>)
    requires forall i :: 0 <= i < |ops| ==> !ops[i].delete && Free(index, ops[i].path)
    requires forall i, j :: 0 <= i < j < |ops| ==> !Comparable(ops[i].path, ops[j].path)
    ensures forall q :: q in ApplyLines(index, ops) <==> q in index || q in OpPaths(ops)
    ensures forall q :: q in index ==> ApplyLines(index, ops)[q] == index[q]
    ensures forall i :: 0 <= i < |ops| ==> ops[i].path in OpPaths(ops) && ApplyLines(index, ops)[ops[i].path] == EntryOf(ops[i])
  {
    if ops != [] {
      var init, last := ops[..|ops| - 1], ops[|ops| - 1];
      FreshLines(index, init);
      assert OpPaths(ops) == OpPaths(init) + [last.path];
      FreshLine(index, init, last);
      forall i | 0 <= i < |ops|
        ensures ops[i].path in OpPaths(ops) && ApplyLines(index, ops)[ops[i].path] == EntryOf(ops[i])
      {
        assert OpPaths(ops)[i] == ops[i].path;
        if i < |init| {
          assert init[i] == ops[i];
        }
      }
    }
  }

  lemma FreshLine(index: Index, init: seq<CommitOp>, last: CommitOp)
    requires !last.delete && Free(index, last.path)
    requires forall i :: 0 <= i < |init| ==> !Comparable(init[i].path, last.path)
    requires forall q :: q in ApplyLines(index, init) ==> q in index || q in OpPaths(init)
    ensures var before := ApplyLines(index, init);
            ApplyLine(before, last) == before[last.path := EntryOf(last)]
    ensures last.path !in ApplyLines(index, init)
  {
    forall q | q in ApplyLines(index, init) ensures !Comparable(q, last.path) {
      if q !in index {
        var i :| 0 <= i < |init| && OpPaths(init)[i] == q;
        assert q == init[i].path;
      }
    }
  }

  // ------------------------------------------------------------- the engine

  datatype IndexEntry = IndexEntry(mode: string, sha: string, path: string)

  /** Exactly the index entries at treePath, each once. */
  ghost predicate ListsEntries(entries: seq<IndexEntry>, index: Index, treePath: string) {
    (forall i :: 0 <= i < |entries| ==>
      entries[i].path in index && Under(entries[i].path, treePath) &&
      index[entries[i].path] == Entry(entries[i].mode, entries[i].sha)) &&
    (forall i, j :: 0 <= i < j < |entries| ==> entries[i].path != entries[j].path) &&
    (forall q :: q in Listing(index, treePath) ==> exists i :: 0 <= i < |entries| && entries[i].path == q)
  }

  function DeleteLine(e: IndexEntry): CommitOp {
    CommitOp(true, "", e.path, "", "")
  }

  function AddLine(e: IndexEntry, from: string, destination: string): CommitOp {
    CommitOp(false, "", Rebase(e.path, from, destination), e.sha, e.mode)
  }

  function DeleteAll(entries: seq<IndexEntry>): seq<CommitOp> {
    seq(|entries|, i requires 0 <= i < |entries| => DeleteLine(entries[i]))
  }

  function AddAll(entries: seq<IndexEntry>, from: string, destination: string): seq<CommitOp> {
    seq(|entries|, i requires 0 <= i < |entries| => AddLine(entries[i], from, destination))
  }

  /** Deleting the entries at from and adding them at destination relabels the subtree. */
  lemma {:induction false} MoveLines(index: Index, entries: seq<IndexEntry>, from: string, destination: string)
    requires PrefixFree(index) && Free(index, destination)
    requires ListsEntries(entries, index, from)
    ensures ApplyLines(index, DeleteAll(entries) + AddAll(entries, from, destination)) == Relabel(index, from, destination)
  {
    var deletes, adds := DeleteAll(entries), AddAll(entries, from, destination);
    DeletesGiveWithout(index, entries, from);
    var kept := Without(index, from);
    AddLinesFresh(index, entries, from, destination);
    FreshLines(kept, adds);
    ApplyLinesConcat(index, deletes, adds);
    RelabelOf(index, entries, from, destination, ApplyLines(kept, adds));
  }

  /** The move specification in terms of the entries listed and the lines written. */
  lemma MoveOutcome(s: Staged, entries: seq<IndexEntry>, from: string, destination: string, allowed: CheckWrite)
    requires PrefixFree(s.index) && WellKeyed(s.pending) && ListsEntries(entries, s.index, from)
    ensures StageMove(s, from, destination, allowed) ==
            if entries == [] then Err(PathNotFound)
            else if Listing(s.index, destination) != {} || ParentOccupied(s.index, destination) then Err(PathExists)
            else if exists i :: 0 <= i < |entries| && !allowed(Rebase(entries[i].path, from, destination)) then Err(PathBlocked)
            else Ok(Staged(ApplyLines(s.index, DeleteAll(entries) + AddAll(entries, from, destination)),
                           MovePending(s.pending, from, destination)))
    ensures WellKeyed(MovePending(s.pending, from, destination))
  {
    MovePendingWellKeyed(s.pending, from, destination);
    FreeChecks(s.index, destination);
    AllowedEverywhere(s.index, entries, from, destination, allowed);
    if entries == [] {
      assert Listing(s.index, from) == {};
    } else {
      assert entries[0].path in Listing(s.index, from);
      if Free(s.index, destination) {
        MoveLines(s.index, entries, from, destination);
      }
    }
  }

  lemma AddLinesFresh(index: Index, entries: seq<IndexEntry>, from: string, destination: string)
    requires PrefixFree(index) && Free(index, destination)
    requires ListsEntries(entries, index, from)
    ensures var adds := AddAll(entries, from, destination);
            (forall i :: 0 <= i < |adds| ==> !adds[i].delete && Free(Without(index, from), adds[i].path)) &&
            (forall i, j :: 0 <= i < j < |adds| ==> !Comparable(adds[i].path, adds[j].path))
  {
    var adds := AddAll(entries, from, destination);
    forall i | 0 <= i < |adds| ensures Free(Without(index, from), adds[i].path) {
      RebaseBack(entries[i].path, from, destination);
      FreeBelow(index, destination, adds[i].path);
    }
    forall i, j | 0 <= i < j < |adds| ensures !Comparable(adds[i].path, adds[j].path) {
      RebaseKeepsOrder(entries[i].path, entries[j].path, from, destination);
      RebaseKeepsOrder(entries[j].path, entries[i].path, from, destination);
    }
  }

  lemma RelabelOf(index: Index, entries: seq<IndexEntry>, from: string, destination: string, r: Index)
    requires ListsEntries(entries, index, from) && Free(index, destination)
    requires var adds := AddAll(entries, from, destination);
             (forall q :: q in r <==> q in Without(index, from) || q in OpPaths(adds)) &&
             (forall i :: 0 <= i < |adds| ==> adds[i].path in OpPaths(adds) && r[adds[i].path] == EntryOf(adds[i]))
    requires forall q :: q in Without(index, from) ==> r[q] == index[q]
    ensures r == Relabel(index, from, destination)
  {
    var adds := AddAll(entries, from, destination);
    forall t
      ensures t in r <==> t in Relabel(index, from, destination)
      ensures t in r ==> r[t] == Relabel(index, from, destination)[t]
    {
      MovedAt(index, from, destination, t);
      if t in Moved(index, from, destination) {
        var q := Rebase(t, destination, from);
        assert q in Listing(index, from);
        var i :| 0 <= i < |entries| && entries[i].path == q;
        RebaseBack(t, destination, from);
        assert adds[i].path == t;
      } else if t in OpPaths(adds) {
        var i :| 0 <= i < |adds| && OpPaths(adds)[i] == t;
        MovedHas(index, from, destination, entries[i].path);
      }
    }
  }

  /** The strict ancestors of a path are its parent directory and that one's ancestors. */
  lemma AncestorStep(p: string, q: string)
    ensures StrictlyUnder(p, q) <==>
            LastSlash(p) >= 0 && (q == p[..LastSlash(p)] || StrictlyUnder(p[..LastSlash(p)], q))
  {
  }

  /** The puts in path order, as handed to the clean pass and the replay. */
  ghost predicate IsPutList(puts: seq<CommitOp>, pending: PendingPuts) {
    SortedListing(OpPaths(puts), pending.Keys) &&
    forall i :: 0 <= i < |puts| ==> puts[i].path in pending && puts[i] == pending[puts[i].path]
  }

  /**
   * The late clean pass: which paths check-attr reports as lfs-tracked in an index, the clean
   * filter (absent when LFS is off) and the sizes of the put blobs.
   */
  datatype Cleaning = Cleaning(
    tracked: (Index, string) -> bool,
    clean: Option<(string, string, nat) -> Result<string>>,
    sizes: map<string, nat>)
  {
    function SizeOf(sha: string): nat {
      if sha in sizes then sizes[sha] else 0
    }

    /** A put after the clean pass; only its blob can change. */
    function Cleaned(index: Index, op: CommitOp): Result<CommitOp> {
      if !tracked(index, op.path) then Ok(op)
      else if clean.None? then Err(LFSRequired)
      else match clean.value(op.path, op.blobSHA, SizeOf(op.blobSHA))
        case Err(e) => Err(e)
        case Ok(sha) => if IsHexSHA(sha) then Ok(op.(blobSHA := sha)) else Err(CleanFailed)
    }
  }

  /** The size the filter is told: that of the put's blob, 0 when none was looked up. */
  predicate IsToldSize(sizes: map<string, nat>, sha: string, size: nat) {
    if sha in sizes then size == sizes[sha] else size == 0
  }

  /** The blob a put is committed with: its own at an untracked path, what the filter returns for it at a tracked one. */
  ghost predicate HasFilteredBlob(c: Cleaning, index: Index, op: CommitOp, blob: string) {
    if c.tracked(index, op.path) then
      c.clean.Some? && |blob| == 40 &&
      exists size: nat :: IsToldSize(c.sizes, op.blobSHA, size) && c.clean.value(op.path, op.blobSHA, size) == Ok(blob)
    else blob == op.blobSHA
  }

  /**
   * What the clean pass does to a put, in terms of the filter: only the blob can change, and it is
   * the filter's at tracked paths alone. It fails for want of a filter, with the filter's own error,
   * or when what the filter returns is no object id.
   */
  lemma CleanedMeans(c: Cleaning, index: Index, op: CommitOp)
    ensures match c.Cleaned(index, op)
            case Ok(after) => after == op.(blobSHA := after.blobSHA) && HasFilteredBlob(c, index, op, after.blobSHA)
            case Err(e) =>
              c.tracked(index, op.path) &&
              if c.clean.None? then e == LFSRequired
              else
                exists size: nat :: IsToldSize(c.sizes, op.blobSHA, size) &&
                  match c.clean.value(op.path, op.blobSHA, size)
                  case Err(refusal) => e == refusal
                  case Ok(blob) => !IsHexSHA(blob) && e == CleanFailed
  {
    assert IsToldSize(c.sizes, op.blobSHA, c.SizeOf(op.blobSHA));
  }

  class StagingArea {
    var index: Index
    var pendingPuts: PendingPuts

    ghost predicate Valid()
      reads this
    {
      PrefixFree(index) && WellKeyed(pendingPuts)
    }

    ghost function State(): Staged
      reads this
    {
      Staged(index, pendingPuts)
    }

    /** read-tree: the tree of the branch head, or the empty index. */
    constructor (tree: Index)
      requires PrefixFree(tree)
      ensures Valid() && State() == Staged(tree, map[])
    {
      index, pendingPuts := tree, map[];
    }

    method UpdateIndex(ops: seq<CommitOp>)
      requires Valid()
      modifies this`index
      ensures Valid() && index == ApplyLines(old(index), ops)
    {
      var i := 0;
      while i < |ops|
        invariant 0 <= i <= |ops|
        invariant index == ApplyLines(old(index), ops[..i])
      {
        assert ops[..i + 1][..i] == ops[..i];
        index := if ops[i].delete then index - {ops[i].path} else Put(index, ops[i].path, EntryOf(ops[i]));
        i := i + 1;
      }
      assert ops[..i] == ops;
      ApplyLinesPrefixFree(old(index), ops);
    }

    method ListIndexEntries(treePath: string) returns (entries: seq<IndexEntry>)
      ensures ListsEntries(entries, index, treePath)
      ensures entries == [] <==> Listing(index, treePath) == {}
    {
      var paths := SortStrings(set q | q in index && Under(q, treePath));
      entries := [];
      var i := 0;
      while i < |paths|
        invariant 0 <= i <= |paths|
        invariant |entries| == i
        invariant forall j :: 0 <= j < i ==>
                    paths[j] in index && Under(paths[j], treePath) &&
                    entries[j] == IndexEntry(index[paths[j]].mode, index[paths[j]].sha, paths[j])
      {
        assert paths[i] in Listing(index, treePath);
        entries := entries + [IndexEntry(index[paths[i]].mode, index[paths[i]].sha, paths[i])];
        i := i + 1;
      }
      forall j, k | 0 <= j < k < |entries| ensures entries[j].path != entries[k].path {
        LessIrreflexive(paths[j]);
      }
      forall q | q in Listing(index, treePath) ensures exists j :: 0 <= j < |entries| && entries[j].path == q {
        assert q in paths;
        var j :| 0 <= j < |paths| && paths[j] == q;
        assert entries[j].path == q;
      }
      if entries != [] {
        assert entries[0].path in Listing(index, treePath);
      }
    }

    /** Looks up every parent directory of the destination as a file of the index. */
    method IndexParentOccupied(destination: string) returns (occupied: bool)
      ensures occupied <==> ParentOccupied(index, destination)
    {
      var parents: seq<string> := [];
      var parent := destination;
      while LastSlash(parent) >= 0
        invariant forall q :: StrictlyUnder(destination, q) <==> q in parents || StrictlyUnder(parent, q)
        decreases |parent|
      {
        forall q ensures StrictlyUnder(parent, q) <==>
                         q == parent[..LastSlash(parent)] || StrictlyUnder(parent[..LastSlash(parent)], q)
        {
          AncestorStep(parent, q);
        }
        parent := parent[..LastSlash(parent)];
        parents := parents + [parent];
      }
      forall q ensures !StrictlyUnder(parent, q) {
        AncestorStep(parent, q);
      }
      var i := 0;
      while i < |parents|
        invariant 0 <= i <= |parents|
        invariant forall j :: 0 <= j < i ==> parents[j] !in index
      {
        if parents[i] in index {
          return true;
        }
        i := i + 1;
      }
      return false;
    }

    method RemovePendingPuts(treePath: string)
      modifies this`pendingPuts
      ensures pendingPuts == Without(old(pendingPuts), treePath)
    {
      var rest := pendingPuts.Keys;
      while rest != {}
        invariant rest <= old(pendingPuts).Keys
        invariant pendingPuts == StillThere(old(pendingPuts), rest, treePath)
        decreases rest
      {
        var path :| path in rest;
        rest := rest - {path};
        if path == treePath || treePath + "/" <= path {
          pendingPuts := pendingPuts - {path};
        }
      }
    }

    method MovePendingPuts(from: string, destination: string)
      modifies this`pendingPuts
      ensures pendingPuts == MovePending(old(pendingPuts), from, destination)
    {
      var moved: PendingPuts := map[];
      ghost var before := pendingPuts;
      ghost var target := MovedPuts(before, from, destination);
      var rest := pendingPuts.Keys;
      StillThereEnds(before, from);
      while rest != {}
        invariant rest <= before.Keys
        invariant pendingPuts == StillThere(before, rest, from)
        invariant forall q :: q in before.Keys - rest && Under(q, from) ==> Rebase(q, from, destination) in moved
        invariant forall t :: t in moved ==> t in target && moved[t] == target[t]
        decreases rest
      {
        var path :| path in rest;
        StillThereStep(before, rest, path, from);
        rest := rest - {path};
        if Under(path, from) {
          var t := Rebase(path, from, destination);
          MovedPut(before, from, destination, path);
          moved := moved[t := pendingPuts[path].(path := t)];
          pendingPuts := pendingPuts - {path};
        }
      }
      AllPutsMoved(before, from, destination, moved);
      pendingPuts := pendingPuts + moved;
    }

    /** The index-info lines of a move, or the policy's refusal of one of its targets. */
    method MoveChanges(entries: seq<IndexEntry>, from: string, destination: string, allowed: CheckWrite)
      returns (r: Result<seq<CommitOp>>)
      ensures r.Ok? <==> forall i :: 0 <= i < |entries| ==> allowed(Rebase(entries[i].path, from, destination))
      ensures r.Ok? ==> r.value == DeleteAll(entries) + AddAll(entries, from, destination)
      ensures r.Err? ==> r.error == PathBlocked
    {
      var changes: seq<CommitOp> := [];
      var i := 0;
      while i < |entries|
        invariant 0 <= i <= |entries|
        invariant changes == DeleteAll(entries[..i])
      {
        changes := changes + [DeleteLine(entries[i])];
        i := i + 1;
      }
      assert entries[..i] == entries;
      i := 0;
      while i < |entries|
        invariant 0 <= i <= |entries|
        invariant changes == DeleteAll(entries) + AddAll(entries[..i], from, destination)
        invariant forall j :: 0 <= j < i ==> allowed(Rebase(entries[j].path, from, destination))
      {
        var target := Rebase(entries[i].path, from, destination);
        if !allowed(target) {
          return Err(PathBlocked);
        }
        assert AddAll(entries[..i + 1], from, destination) ==
               AddAll(entries[..i], from, destination) + [AddLine(entries[i], from, destination)];
        changes := changes + [AddLine(entries[i], from, destination)];
        i := i + 1;
      }
      assert entries[..i] == entries;
      return Ok(changes);
    }

    method MoveIndexPath(from: string, destination: string, allowed: CheckWrite) returns (r: Result<()>)
      requires Valid()
      modifies this
      ensures Valid()
      ensures match StageMove(old(State()), from, destination, allowed)
              case Err(e) => r == Err(e) && State() == old(State())
              case Ok(next) => r.Ok? && State() == next
    {
      var entries := ListIndexEntries(from);
      MoveOutcome(State(), entries, from, destination, allowed);
      if |entries| == 0 {
        return Err(PathNotFound);
      }
      var occupied := ListIndexEntries(destination);
      var parentOccupied := IndexParentOccupied(destination);
      if |occupied| != 0 || parentOccupied {
        return Err(PathExists);
      }
      var changes := MoveChanges(entries, from, destination, allowed);
      if changes.Err? {
        return Err(changes.error);
      }
      UpdateIndex(changes.value);
      MovePendingPuts(from, destination);
      return Ok(());
    }

    /** One request operation. */
    method StageCommitOp(op: CommitOp, allowed: CheckWrite) returns (r: Result<()>)
      requires Valid()
      modifies this
      ensures Valid()
      ensures match StageOp(old(State()), op, allowed)
              case Err(e) => r == Err(e) && State() == old(State())
              case Ok(next) => r.Ok? && State() == next
    {
      if op.moveFrom != "" {
        r := MoveIndexPath(op.moveFrom, op.path, allowed);
      } else if op.delete {
        var entries := ListIndexEntries(op.path);
        if |entries| == 0 {
          return Err(PathNotFound);
        }
        var deletes: seq<CommitOp> := [];
        var i := 0;
        while i < |entries|
          invariant 0 <= i <= |entries|
          invariant deletes == DeleteAll(entries[..i])
        {
          deletes := deletes + [DeleteLine(entries[i])];
          i := i + 1;
        }
        assert entries[..i] == entries;
        DeletesGiveWithout(index, entries, op.path);
        UpdateIndex(deletes);
        RemovePendingPuts(op.path);
        return Ok(());
      } else {
        if !allowed(op.path) {
          return Err(PathBlocked);
        }
        assert ApplyLines(index, [op]) == Put(index, op.path, EntryOf(op)) by {
          assert [op][..0] == [];
        }
        UpdateIndex([op]);
        RemovePendingPuts(op.path);
        pendingPuts := pendingPuts[op.path := op];
        return Ok(());
      }
    }

    /** Applies the operations in request order and returns the puts that survived, by path. */
    method StageCommitOps(ops: seq<CommitOp>, allowed: CheckWrite) returns (r: Result<seq<CommitOp>>)
      requires Valid()
      modifies this
      ensures Valid()
      ensures match StageOps(old(State()), ops, allowed)
              case Err(e) => r == Err(e)
              case Ok(final) => State() == final && r.Ok? && IsPutList(r.value, final.pending)
    {
      var i := 0;
      while i < |ops|
        invariant 0 <= i <= |ops|
        invariant Valid()
        invariant StageOps(State(), ops[i..], allowed) == StageOps(old(State()), ops, allowed)
      {
        StageOpsFrom(State(), ops, i, allowed);
        var step := StageCommitOp(ops[i], allowed);
        if step.Err? {
          return Err(step.error);
        }
        i := i + 1;
      }
      var puts := SurvivingPuts();
      return Ok(puts);
    }

    method SurvivingPuts() returns (puts: seq<CommitOp>)
      requires Valid()
      ensures IsPutList(puts, pendingPuts)
    {
      var paths := SortStrings(pendingPuts.Keys);
      puts := [];
      var i := 0;
      while i < |paths|
        invariant 0 <= i <= |paths|
        invariant |puts| == i
        invariant forall j :: 0 <= j < i ==> paths[j] in pendingPuts && puts[j] == pendingPuts[paths[j]]
      {
        puts := puts + [pendingPuts[paths[i]]];
        i := i + 1;
      }
      assert OpPaths(puts) == paths;
    }

    /** Swaps the blobs of lfs-tracked puts for their pointer blobs. */
    method CleanLFSTracked(ops: seq<CommitOp>, c: Cleaning) returns (r: Result<seq<CommitOp>>)
      ensures r.Ok? <==> forall i :: 0 <= i < |ops| ==> c.Cleaned(index, ops[i]).Ok?
      ensures r.Ok? ==> |r.value| == |ops| && forall i :: 0 <= i < |ops| ==> Ok(r.value[i]) == c.Cleaned(index, ops[i])
      ensures r.Err? ==> exists i :: 0 <= i < |ops| && c.Cleaned(index, ops[i]) == Err(r.error) &&
                                     forall j :: 0 <= j < i ==> c.Cleaned(index, ops[j]).Ok?
      ensures r.Ok? ==> forall i :: 0 <= i < |ops| ==>
                r.value[i] == ops[i].(blobSHA := r.value[i].blobSHA) && HasFilteredBlob(c, index, ops[i], r.value[i].blobSHA)
    {
      var out := ops;
      var i := 0;
      while i < |ops|
        invariant 0 <= i <= |ops| == |out|
        invariant forall j :: 0 <= j < i ==> c.Cleaned(index, ops[j]) == Ok(out[j])
        invariant forall j :: i <= j < |ops| ==> out[j] == ops[j]
      {
        if c.tracked(index, out[i].path) {
          if c.clean.None? {
            assert c.Cleaned(index, ops[i]) == Err(LFSRequired);
            return Err(LFSRequired);
          }
          var pointer := c.clean.value(out[i].path, out[i].blobSHA, c.SizeOf(out[i].blobSHA));
          if pointer.Err? {
            assert c.Cleaned(index, ops[i]) == Err(pointer.error);
            return Err(pointer.error);
          }
          if !IsHexSHA(pointer.value) {
            assert c.Cleaned(index, ops[i]) == Err(CleanFailed);
            return Err(CleanFailed);
          }
          out := out[i := out[i].(blobSHA := pointer.value)];
        }
        i := i + 1;
      }
      forall j | 0 <= j < |ops|
        ensures out[j] == ops[j].(blobSHA := out[j].blobSHA) && HasFilteredBlob(c, index, ops[j], out[j].blobSHA)
      {
        CleanedMeans(c, index, ops[j]);
      }
      return Ok(out);
    }
  }

  /** Pending puts in the middle of a scan that drops those at a path. */
  ghost function StillThere(before: PendingPuts, rest: set<string>, path: string): PendingPuts {
    map q | q in before && (q in rest || !Under(q, path)) :: before[q]
  }

  lemma StillThereStep(before: PendingPuts, rest: set<string>, path: string, treePath: string)
    requires path in rest && rest <= before.Keys
    ensures var was := StillThere(before, rest, treePath);
            path in was && was[path] == before[path] &&
            StillThere(before, rest - {path}, treePath) == if Under(path, treePath) then was - {path} else was
  {
  }

  lemma StillThereEnds(before: PendingPuts, treePath: string)
    ensures StillThere(before, {}, treePath) == Without(before, treePath)
    ensures StillThere(before, before.Keys, treePath) == before
  {
  }

  lemma MovedPut(before: PendingPuts, from: string, destination: string, path: string)
    requires path in before && Under(path, from)
    ensures var t := Rebase(path, from, destination);
            t in MovedPuts(before, from, destination) &&
            MovedPuts(before, from, destination)[t] == before[path].(path := t)
  {
    MovedHas(before, from, destination, path);
  }

  lemma AllPutsMoved(before: PendingPuts, from: string, destination: string, moved: PendingPuts)
    requires forall q :: q in before && Under(q, from) ==> Rebase(q, from, destination) in moved
    requires var target := MovedPuts(before, from, destination); forall t :: t in moved ==> t in target && moved[t] == target[t]
    ensures moved == MovedPuts(before, from, destination)
  {
  }

  lemma AllowedEverywhere(index: Index, entries: seq<IndexEntry>, from: string, destination: string, allowed: CheckWrite)
    requires ListsEntries(entries, index, from)
    ensures (forall i :: 0 <= i < |entries| ==> allowed(Rebase(entries[i].path, from, destination))) <==>
            forall q :: q in Listing(index, from) ==> allowed(Rebase(q, from, destination))
  {
  }

  lemma MovePendingWellKeyed(pending: PendingPuts, from: string, destination: string)
    requires WellKeyed(pending)
    ensures WellKeyed(MovePending(pending, from, destination))
  {
  }

  lemma DeletesGiveWithout(index: Index, entries: seq<IndexEntry>, path: string)
    requires ListsEntries(entries, index, path)
    ensures ApplyLines(index, DeleteAll(entries)) == Without(index, path)
  {
    var deletes := DeleteAll(entries);
    DeleteLines(index, deletes);
    forall q | q in index ensures Under(q, path) <==> q in OpPaths(deletes) {
      if q in OpPaths(deletes) {
        var i :| 0 <= i < |deletes| && OpPaths(deletes)[i] == q;
        assert entries[i].path == q;
      }
      if Under(q, path) {
        assert q in Listing(index, path);
        var i :| 0 <= i < |entries| && entries[i].path == q;
        assert OpPaths(deletes)[i] == q;
      }
    }
  }
}
