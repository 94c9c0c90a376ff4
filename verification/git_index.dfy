/**
 * The private index of a commit: a map from file paths to what is stored there.
 * The functions are generic in the stored value, so that the same operations act on git's
 * entries and on entries that carry their history.
 */
module GitIndex {
  import opened Paths

  datatype Entry = Entry(mode: string, sha: string)

  type Index = map<string, Entry>

  /** No file is also a directory: what every tree read by read-tree satisfies. */
  ghost predicate PrefixFree<V>(m: map<string, V>) {
    forall p, q :: p in m && q in m ==> !StrictlyUnder(p, q)
  }

  predicate SameAt<V(==)>(a: map<string, V>, b: map<string, V>, q: string) {
    (q in a <==> q in b) && (q in a ==> a[q] == b[q])
  }

  lemma SameMap<V>(a: map<string, V>, b: map<string, V>)
    requires forall q :: SameAt(a, b, q)
    ensures a == b
  {
    forall q ensures q in a <==> q in b {
      assert SameAt(a, b, q);
    }
    forall q | q in a ensures a[q] == b[q] {
      assert SameAt(a, b, q);
    }
  }

  /** ls-files at a path: the path and everything below it. */
  function Listing<V>(m: map<string, V>, path: string): (r: set<string>) {
    set q | q in m && Under(q, path)
  }

  /** Some strict ancestor of the path is a file. */
  predicate ParentOccupied<V>(m: map<string, V>, path: string) {
    exists q :: q in m && StrictlyUnder(path, q)
  }

  /** Drops a path and everything below it. */
  function Without<V>(m: map<string, V>, path: string): map<string, V> {
    map q | q in m && !Under(q, path) :: m[q]
  }

  /** One added line of update-index --index-info, replacing files in the way. */
  function Put<V>(m: map<string, V>, path: string, v: V): map<string, V> {
    (map q | q in m && !StrictlyUnder(q, path) && !StrictlyUnder(path, q) :: m[q])[path := v]
  }

  /** The entries under from, re-keyed to lie under destination. */
  function Moved<V>(m: map<string, V>, from: string, destination: string): map<string, V> {
    map t | t in (set q | q in m && Under(q, from) :: Rebase(q, from, destination)) && Rebase(t, destination, from) in m ::
      m[Rebase(t, destination, from)]
  }

  /** The subtree at from renamed to destination, the rest left alone. */
  function Relabel<V>(m: map<string, V>, from: string, destination: string): map<string, V> {
    Without(m, from) + Moved(m, from, destination)
  }

  lemma MovedAt<V>(m: map<string, V>, from: string, destination: string, t: string)
    ensures t in Moved(m, from, destination) <==>
            Under(t, destination) && Under(Rebase(t, destination, from), from) && Rebase(t, destination, from) in m
    ensures t in Moved(m, from, destination) ==> Moved(m, from, destination)[t] == m[Rebase(t, destination, from)]
  {
    if t in Moved(m, from, destination) {
      var q :| q in m && Under(q, from) && t == Rebase(q, from, destination);
      RebaseBack(q, from, destination);
    }
    if Under(t, destination) && Rebase(t, destination, from) in m {
      RebaseBack(t, destination, from);
    }
  }

  lemma MovedHas<V>(m: map<string, V>, from: string, destination: string, q: string)
    requires q in m && Under(q, from)
    ensures Rebase(q, from, destination) in Moved(m, from, destination)
    ensures Moved(m, from, destination)[Rebase(q, from, destination)] == m[q]
  {
    RebaseBack(q, from, destination);
    MovedAt(m, from, destination, Rebase(q, from, destination));
  }

  lemma PutPrefixFree<V>(m: map<string, V>, path: string, v: V)
    requires PrefixFree(m)
    ensures PrefixFree(Put(m, path, v))
  {
  }

  /** A destination git finds free: nothing at it, below it or above it. */
  ghost predicate Free<V>(m: map<string, V>, destination: string) {
    forall q :: q in m ==> !Comparable(q, destination)
  }

  lemma FreeChecks<V>(m: map<string, V>, destination: string)
    ensures Free(m, destination) <==> Listing(m, destination) == {} && !ParentOccupied(m, destination)
  {
    if Listing(m, destination) == {} && !ParentOccupied(m, destination) {
      forall q | q in m ensures !Comparable(q, destination) {
        assert q !in Listing(m, destination);
      }
    }
  }

  /** A path that is comparable with something below destination is comparable with destination. */
  lemma FreeBelow<V>(m: map<string, V>, destination: string, t: string)
    requires Free(m, destination) && Under(t, destination)
    ensures Free(m, t)
  {
    forall q | q in m ensures !Comparable(q, t) {
      if Under(q, t) {
        UnderTransitive(q, t, destination);
      }
      if Under(t, q) {
        AncestorsComparable(t, q, destination);
      }
    }
  }

  lemma {:induction false} RelabelPrefixFree<V>(m: map<string, V>, from: string, destination: string)
    requires PrefixFree(m) && Free(m, destination)
    ensures PrefixFree(Relabel(m, from, destination))
  {
    var r := Relabel(m, from, destination);
    forall p, q | p in r && q in r ensures !StrictlyUnder(p, q) {
      MovedAt(m, from, destination, p);
      MovedAt(m, from, destination, q);
      if p in Moved(m, from, destination) && q in Moved(m, from, destination) {
        RebaseKeepsOrder(p, q, destination, from);
      } else if p in Moved(m, from, destination) {
        FreeBelow(m, destination, p);
      } else if q in Moved(m, from, destination) {
        FreeBelow(m, destination, q);
      }
    }
  }
}
