/** Single steps of the staging engine on small states, for requests worked out by hand. */
module StagingSteps {
  import opened Text
  import opened Paths
  import opened Results
  import opened GitIndex
  import opened GitIds
  import opened CommitOps
  import opened Staging
  import opened Replay

  function PutOf(path: string, sha: string): CommitOp {
    CommitOp(false, "", path, sha, "100644")
  }

  function MoveOf(from: string, path: string): CommitOp {
    CommitOp(false, from, path, "", "")
  }

  function Untracked(index: Index, path: string): bool { false }

  lemma MovedOnly<V>(m: map<string, V>, from: string, destination: string, p: string)
    requires p in m && Under(p, from) && forall q :: q in m && q != p ==> !Under(q, from)
    ensures Moved(m, from, destination) == map[Rebase(p, from, destination) := m[p]]
  {
    RebaseBack(p, from, destination);
    forall t ensures SameAt(Moved(m, from, destination), map[Rebase(p, from, destination) := m[p]], t) {
      MovedAt(m, from, destination, t);
      if t in Moved(m, from, destination) {
        RebaseBack(t, destination, from);
      }
    }
    SameMap(Moved(m, from, destination), map[Rebase(p, from, destination) := m[p]]);
  }

  lemma RelabelOnly<V>(m: map<string, V>, from: string, destination: string, p: string)
    requires p in m && Under(p, from) && forall q :: q in m && q != p ==> !Under(q, from)
    ensures Relabel(m, from, destination) == (m - {p})[Rebase(p, from, destination) := m[p]]
  {
    MovedOnly(m, from, destination, p);
    WithoutOnly(m, from, p);
  }

  lemma MovePendingOnly(pending: PendingPuts, from: string, destination: string, p: string)
    requires p in pending && Under(p, from) && forall q :: q in pending && q != p ==> !Under(q, from)
    ensures MovePending(pending, from, destination) ==
            (pending - {p})[Rebase(p, from, destination) := pending[p].(path := Rebase(p, from, destination))]
  {
    MovedPutsOnly(pending, from, destination, p);
    WithoutOnly(pending, from, p);
  }

  lemma MovedPutsOnly(pending: PendingPuts, from: string, destination: string, p: string)
    requires p in pending && Under(p, from) && forall q :: q in pending && q != p ==> !Under(q, from)
    ensures MovedPuts(pending, from, destination) ==
            map[Rebase(p, from, destination) := pending[p].(path := Rebase(p, from, destination))]
  {
    MovedOnly(pending, from, destination, p);
  }

  lemma WithoutOnly<V>(m: map<string, V>, from: string, p: string)
    requires p in m && Under(p, from) && forall q :: q in m && q != p ==> !Under(q, from)
    ensures Without(m, from) == m - {p}
  {
  }

  lemma MovedNone<V>(m: map<string, V>, from: string, destination: string)
    requires forall q :: q in m ==> !Under(q, from)
    ensures Moved(m, from, destination) == map[]
  {
  }

  lemma StageCons(s: Staged, op: CommitOp, rest: seq<CommitOp>, next: Staged, allowed: CheckWrite)
    requires StageOp(s, op, allowed) == Ok(next)
    ensures StageOps(s, [op] + rest, allowed) == StageOps(next, rest, allowed)
  {
  }

  // -------------------------------------------------------------------- moves

  lemma MoveDirStep(s: Staged, from: string, destination: string, file: string, stale: string, allowed: CheckWrite)
    requires from != "" && Free(s.index, destination) && allowed(Rebase(file, from, destination))
    requires file in s.index && Under(file, from) && forall q :: q in s.index && q != file ==> !Under(q, from)
    requires stale in s.pending && Under(stale, from) && forall q :: q in s.pending && q != stale ==> !Under(q, from)
    ensures StageOp(s, MoveOf(from, destination), allowed) ==
            Ok(Staged((s.index - {file})[Rebase(file, from, destination) := s.index[file]],
                      (s.pending - {stale})[Rebase(stale, from, destination) := s.pending[stale].(path := Rebase(stale, from, destination))]))
  {
    FreeChecks(s.index, destination);
    assert file in Listing(s.index, from);
    assert Listing(s.index, from) == {file};
    RelabelOnly(s.index, from, destination, file);
    MovePendingOnly(s.pending, from, destination, stale);
  }

  /** Moving a directory that holds one file and, in the pending map only, one stale put. */
  lemma MoveDir(index: Index, pending: PendingPuts, from: string, destination: string,
                file: string, f: Entry, stale: string, put: CommitOp, allowed: CheckWrite)
    requires from != "" && Free(index, destination) && !Comparable(file, destination) && allowed(Rebase(file, from, destination))
    requires Under(file, from) && Under(stale, from) && forall q :: q in index || q in pending ==> !Under(q, from)
    ensures StageOp(Staged(index[file := f], pending[stale := put]), MoveOf(from, destination), allowed) ==
            Ok(Staged(index[Rebase(file, from, destination) := f],
                      pending[Rebase(stale, from, destination) := put.(path := Rebase(stale, from, destination))]))
  {
    MoveDirStep(Staged(index[file := f], pending[stale := put]), from, destination, file, stale, allowed);
    AddThenRemove(index, file, f);
    AddThenRemove(pending, stale, put);
  }

  lemma AddThenRemove<V>(m: map<string, V>, k: string, v: V)
    requires k !in m
    ensures m[k := v] - {k} == m
  {
  }

  lemma MoveFileStep(s: Staged, from: string, destination: string, allowed: CheckWrite)
    requires from in s.index && Free(s.index, destination) && allowed(destination) && from != ""
    requires forall q :: q in s.index && q != from ==> !Under(q, from)
    ensures StageOp(s, MoveOf(from, destination), allowed) ==
            Ok(Staged((s.index - {from})[destination := s.index[from]], MovePending(s.pending, from, destination)))
  {
    FreeChecks(s.index, destination);
    RelabelOnly(s.index, from, destination, from);
    RebaseBack(from, from, destination);
    assert from in Listing(s.index, from);
    assert Listing(s.index, from) == {from};
  }

  /** A move of a file that was put: its pending put goes along. */
  lemma MovePut(index: Index, pending: PendingPuts, from: string, destination: string, f: Entry, put: CommitOp, allowed: CheckWrite)
    requires from != "" && allowed(destination) && Free(index, destination) && !Comparable(from, destination)
    requires forall q :: q in index || q in pending ==> !Under(q, from)
    ensures StageOp(Staged(index[from := f], pending[from := put]), MoveOf(from, destination), allowed) ==
            Ok(Staged(index[destination := f], pending[destination := put.(path := destination)]))
  {
    var s := Staged(index[from := f], pending[from := put]);
    MoveFileStep(s, from, destination, allowed);
    MovePendingOnly(s.pending, from, destination, from);
    RebaseBack(from, from, destination);
    assert s.index - {from} == index && s.pending - {from} == pending;
  }

  /** A move of a file no put stands for. */
  lemma MoveTreeFile(index: Index, pending: PendingPuts, from: string, destination: string, f: Entry, allowed: CheckWrite)
    requires from != "" && allowed(destination) && Free(index, destination) && !Comparable(from, destination)
    requires forall q :: q in index || q in pending ==> !Under(q, from)
    ensures StageOp(Staged(index[from := f], pending), MoveOf(from, destination), allowed) ==
            Ok(Staged(index[destination := f], pending))
  {
    var s := Staged(index[from := f], pending);
    MoveFileStep(s, from, destination, allowed);
    MovedNone(pending, from, destination);
    assert MovePending(pending, from, destination) == pending;
    assert s.index - {from} == index;
  }

  // --------------------------------------------------------------------- puts

  /** A put where nothing is in the way. */
  lemma PutBeside(index: Index, pending: PendingPuts, path: string, sha: string, allowed: CheckWrite)
    requires allowed(path) && Free(index, path) && Free(pending, path)
    ensures StageOp(Staged(index, pending), PutOf(path, sha), allowed) ==
            Ok(Staged(index[path := Entry("100644", sha)], pending[path := PutOf(path, sha)]))
  {
    assert Put(index, path, Entry("100644", sha)) == index[path := Entry("100644", sha)];
    assert Without(pending, path) == pending;
  }

  /** A put below a file that was put itself: the file goes, its pending put stays. */
  lemma PutInto(index: Index, pending: PendingPuts, dir: string, path: string, f: Entry, put: CommitOp, sha: string, allowed: CheckWrite)
    requires allowed(path) && Free(index, path) && Free(pending, path) && StrictlyUnder(path, dir) && !Under(dir, path)
    ensures StageOp(Staged(index[dir := f], pending[dir := put]), PutOf(path, sha), allowed) ==
            Ok(Staged(index[path := Entry("100644", sha)], pending[dir := put][path := PutOf(path, sha)]))
  {
    assert dir !in index;
    assert Put(index[dir := f], path, Entry("100644", sha)) == index[path := Entry("100644", sha)];
    assert Without(pending[dir := put], path) == pending[dir := put];
  }

  // ---------------------------------------------------------------- the replay

  lemma UntrackedIsClean(s: Staged)
    ensures forall p :: p in s.pending ==> Cleaning(Untracked, None, map[]).Cleaned(s.index, s.pending[p]) == Ok(s.pending[p])
  {
  }

  /** Without lfs-tracked paths a deepest pending put is in the tree as it is. */
  lemma {:induction false} DeepestIsWritten(s: Staged, p: string, r: Result<Index>)
    requires p in s.pending && forall q :: q in s.pending ==> !StrictlyUnder(q, p)
    requires r.Ok? ==> r.value == Overridden(s.index, CleanedEntries(Cleaning(Untracked, None, map[]), s))
    ensures r.Ok? ==> p in r.value && r.value[p] == EntryOf(s.pending[p])
  {
    var cleaned := CleanedEntries(Cleaning(Untracked, None, map[]), s);
    assert p in cleaned && cleaned[p] == EntryOf(s.pending[p]);
    assert Survives(cleaned, p);
  }

  // -------------------------------------------------------------------- names

  predicate ValidPath(p: string) {
    CleanPath(p) && !HasControl(p)
  }

  lemma NameIsValid(p: string)
    requires Lacks(p, '/') && PlainSegment(p) && !HasControl(p)
    ensures ValidPath(p)
  {
    SplitWhole(p, '/');
  }

  /** Names of files and directories: a single segment each, usable in a request. */
  predicate IsName(n: string) {
    Lacks(n, '/') && PlainSegment(n) && !HasControl(n)
  }

  lemma NameSegments(n: string)
    requires IsName(n)
    ensures Segments(n) == [n] && ValidPath(n) && n != ""
  {
    SplitWhole(n, '/');
    NameIsValid(n);
  }

  lemma ChildSegments(p: string, n: string)
    requires IsName(n)
    ensures Segments(p + "/" + n) == Segments(p) + [n] && StrictlyUnder(p + "/" + n, p)
    ensures ValidPath(p) ==> ValidPath(p + "/" + n)
  {
    SplitWhole(n, '/');
    SplitConcat(p, n, '/');
    StrictlyUnderAt(p + "/" + n, p);
  }

  /** Paths that differ in some segment both have are not nested. */
  lemma DifferAt(p: string, q: string, i: nat)
    requires i < |Segments(p)| && i < |Segments(q)| && Segments(p)[i] != Segments(q)[i]
    ensures !Comparable(p, q)
  {
    UnderIsSegmentPrefix(p, q);
    UnderIsSegmentPrefix(q, p);
  }

  lemma NotUnderChild(p: string, n: string)
    ensures !Under(p, p + "/" + n)
  {
    StrictlyUnderAt(p, p + "/" + n);
  }

  lemma PutIsValid(path: string, sha: string)
    requires ValidPath(path) && IsHexSHA(sha)
    ensures ValidOp(PutOf(path, sha)) && PutOf(path, sha).IsPut()
  {
  }

  lemma MoveIsValid(from: string, path: string)
    requires ValidPath(from) && ValidPath(path) && !Under(path, from)
    ensures ValidOp(MoveOf(from, path)) && MoveOf(from, path).IsMove()
  {
    RootHasNoName();
  }
}
