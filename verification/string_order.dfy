/** Byte order of strings and the sorted key listing that sort.Strings gives. */
module StringOrder {

  predicate Less(a: string, b: string) {
    if b == "" then false
    else if a == "" then true
    else a[0] < b[0] || (a[0] == b[0] && Less(a[1..], b[1..]))
  }

  lemma {:induction false} LessTotal(a: string, b: string)
    ensures a == b || Less(a, b) || Less(b, a)
    ensures !(Less(a, b) && Less(b, a)) && !Less(a, a)
  {
    if a != "" && b != "" {
      LessTotal(a[1..], b[1..]);
      assert a == [a[0]] + a[1..] && b == [b[0]] + b[1..];
    }
    if a != "" {
      LessIrreflexive(a);
    }
  }

  lemma {:induction false} LessIrreflexive(a: string)
    ensures !Less(a, a)
  {
    if a != "" {
      LessIrreflexive(a[1..]);
    }
  }

  lemma {:induction false} LessTransitive(a: string, b: string, c: string)
    requires Less(a, b) && Less(b, c)
    ensures Less(a, c)
  {
    if a != "" && a[0] == b[0] == c[0] {
      LessTransitive(a[1..], b[1..], c[1..]);
    }
  }

  /** At the first k where they differ, a ends or has the smaller character. */
  ghost predicate DifferAt(a: string, b: string, k: int) {
    0 <= k <= |a| && k < |b| && a[..k] == b[..k] && (k == |a| || a[k] < b[k])
  }

  lemma {:induction false} LessMeans(a: string, b: string)
    ensures Less(a, b) <==> exists k :: DifferAt(a, b, k)
  {
    if a != "" && b != "" && a[0] == b[0] {
      LessMeans(a[1..], b[1..]);
      forall k | k > 0 ensures DifferAt(a, b, k) <==> DifferAt(a[1..], b[1..], k - 1) {
        if k <= |a| && k < |b| {
          assert a[..k] == [a[0]] + a[1..][..k - 1] && b[..k] == [b[0]] + b[1..][..k - 1];
          assert a[1..][..k - 1] == a[..k][1..] && b[1..][..k - 1] == b[..k][1..];
        }
      }
      if Less(a, b) {
        var k :| DifferAt(a[1..], b[1..], k);
        assert DifferAt(a, b, k + 1);
      }
      assert !DifferAt(a, b, 0);
    } else if Less(a, b) {
      assert DifferAt(a, b, 0);
    } else {
      forall k ensures !DifferAt(a, b, k) {
        assert 0 < k <= |a| && k < |b| ==> a[..k][0] == a[0] && b[..k][0] == b[0];
      }
    }
  }

  /** A directory sorts before everything below it. */
  lemma {:induction false} PrefixLess(a: string, b: string)
    requires a < b
    ensures Less(a, b)
  {
    if a != "" {
      PrefixLess(a[1..], b[1..]);
    }
  }

  /** s lists keys, each once, in ascending order. */
  ghost predicate SortedListing(s: seq<string>, keys: set<string>) {
    (forall i, j :: 0 <= i < j < |s| ==> Less(s[i], s[j])) &&
    (forall k :: k in keys <==> k in s)
  }

  /** Position of the first element of s that k is not above. */
  method InsertionPoint(s: seq<string>, k: string) returns (at: nat)
    requires k !in s
    requires forall i, j :: 0 <= i < j < |s| ==> Less(s[i], s[j])
    ensures at <= |s|
    ensures forall i :: 0 <= i < at ==> Less(s[i], k)
    ensures forall i :: at <= i < |s| ==> Less(k, s[i])
  {
    at := 0;
    while at < |s| && Less(s[at], k)
      invariant at <= |s|
      invariant forall i :: 0 <= i < at ==> Less(s[i], k)
    {
      at := at + 1;
    }
    if at < |s| {
      LessTotal(s[at], k);
      forall i | at < i < |s| ensures Less(k, s[i]) {
        LessTransitive(k, s[at], s[i]);
      }
    }
  }

  method SortStrings(keys: set<string>) returns (s: seq<string>)
    ensures SortedListing(s, keys)
  {
    s := [];
    var rest := keys;
    while rest != {}
      invariant rest <= keys
      invariant SortedListing(s, keys - rest)
      decreases rest
    {
      var k :| k in rest;
      rest := rest - {k};
      var at := InsertionPoint(s, k);
      ghost var t := s;
      s := s[..at] + [k] + s[at..];
      forall x ensures x in s <==> x in t || x == k {
        assert t == t[..at] + t[at..];
        assert x in t <==> x in t[..at] || x in t[at..];
      }
    }
  }
}
