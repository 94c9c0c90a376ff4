/**
 * Commits and refs. The object store is append-only and content-addressed: a commit's id is
 * its position, so an id names one content and parents are older than their children.
 */
module CommitGraph {
  import opened Results
  import opened Paths
  import opened GitIndex

  type CommitId = nat

  datatype Commit = Commit(tree: Index, parents: seq<CommitId>, author: string, committer: string, date: int, message: string)

  type Store = seq<Commit>

  type Refs = map<string, CommitId>

  ghost predicate ValidStore(store: Store) {
    (forall i :: 0 <= i < |store| ==> PrefixFree(store[i].tree)) &&
    (forall i, j :: 0 <= i < |store| && 0 <= j < |store[i].parents| ==> store[i].parents[j] < i)
  }

  ghost predicate ValidRefs(store: Store, refs: Refs) {
    forall r :: r in refs ==> refs[r] < |store|
  }

  /** a is d or reachable from d through parents. */
  ghost predicate Ancestor(store: Store, a: CommitId, d: CommitId)
    decreases d
  {
    a == d ||
    (d < |store| && exists j :: 0 <= j < |store[d].parents| && store[d].parents[j] < d && Ancestor(store, a, store[d].parents[j]))
  }

  ghost predicate Reachable(store: Store, refs: Refs, a: CommitId) {
    exists r :: r in refs && Ancestor(store, a, refs[r])
  }

  lemma {:induction false} AncestorIsOlder(store: Store, a: CommitId, d: CommitId)
    requires Ancestor(store, a, d)
    ensures a <= d
    decreases d
  {
    if a != d {
      var j :| 0 <= j < |store[d].parents| && store[d].parents[j] < d && Ancestor(store, a, store[d].parents[j]);
      AncestorIsOlder(store, a, store[d].parents[j]);
    }
  }

  lemma {:induction false} AncestorTransitive(store: Store, a: CommitId, b: CommitId, c: CommitId)
    requires Ancestor(store, a, b) && Ancestor(store, b, c)
    ensures Ancestor(store, a, c)
    decreases c
  {
    if b != c {
      var j :| 0 <= j < |store[c].parents| && store[c].parents[j] < c && Ancestor(store, b, store[c].parents[j]);
      AncestorTransitive(store, a, b, store[c].parents[j]);
    }
  }

  /** Growing the store changes no history that was already there. */
  lemma {:induction false} AncestorStable(store: Store, more: Store, a: CommitId, d: CommitId)
    requires store <= more && d < |store|
    ensures Ancestor(store, a, d) <==> Ancestor(more, a, d)
    decreases d
  {
    assert store[d] == more[d];
    forall j | 0 <= j < |store[d].parents| && store[d].parents[j] < d
      ensures Ancestor(store, a, store[d].parents[j]) <==> Ancestor(more, a, store[d].parents[j])
    {
      AncestorStable(store, more, a, store[d].parents[j]);
    }
  }

  function IndexOf(store: Store, c: Commit): (i: nat)
    requires c in store
    ensures i < |store| && store[i] == c
  {
    if store[0] == c then 0 else 1 + IndexOf(store[1..], c)
  }

  /** commit-tree: a commit with known content has its known id, a new one is appended. */
  function CommitTree(store: Store, c: Commit): (Store, CommitId) {
    if c in store then (store, IndexOf(store, c)) else (store + [c], |store|)
  }

  lemma CommitTreeStores(store: Store, c: Commit)
    requires ValidStore(store) && PrefixFree(c.tree)
    requires forall j :: 0 <= j < |c.parents| ==> c.parents[j] < |store|
    ensures var (store', id) := CommitTree(store, c);
            ValidStore(store') && store <= store' && id < |store'| && store'[id] == c &&
            |store'| == |store| + (if exists i :: 0 <= i < |store| && store[i] == c then 0 else 1)
  {
    assert c in store <==> exists i :: 0 <= i < |store| && store[i] == c;
  }

  /** A branch name that cannot exist beside the refs there are (feature and feature/x). */
  predicate Collides(refs: Refs, ref: string) {
    exists r :: r in refs && (StrictlyUnder(r, ref) || StrictlyUnder(ref, r))
  }

  /** No ref is a directory of another, as git stores them. */
  ghost predicate FlatRefs(refs: Refs) {
    forall r, r' :: r in refs && r' in refs ==> !(r + "/" <= r')
  }

  function Lookup(refs: Refs, ref: string): Option<CommitId> {
    if ref in refs then Some(refs[ref]) else None
  }

  /** update-ref with an old value: refused unless the ref still has it, None standing for the zero id. */
  function UpdateRef(refs: Refs, ref: string, new_: CommitId, old_: Option<CommitId>): Option<Refs> {
    if Lookup(refs, ref) == old_ && (old_.Some? || !Collides(refs, ref)) then Some(refs[ref := new_]) else None
  }

  /** update-ref -d with an old value. */
  function DeleteRef(refs: Refs, ref: string, old_: CommitId): Option<Refs> {
    if Lookup(refs, ref) == Some(old_) then Some(refs - {ref}) else None
  }

  /** What diff-tree lists for a commit: paths present in it and different in every parent. */
  ghost predicate Listed(store: Store, c: CommitId, path: string)
    requires c < |store|
  {
    path in store[c].tree &&
    forall j :: 0 <= j < |store[c].parents| && store[c].parents[j] < |store| ==> !SameEntry(store, c, store[c].parents[j], path)
  }

  ghost predicate SameEntry(store: Store, c: CommitId, d: CommitId, path: string)
    requires c < |store| && d < |store|
  {
    path in store[c].tree && path in store[d].tree && store[c].tree[path] == store[d].tree[path]
  }
}
