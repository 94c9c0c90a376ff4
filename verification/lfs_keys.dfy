/** Where LFS objects are stored: keys made from object ids, and keys made for uploads. */
module LfsKeys {
  import opened Text
  import opened LfsPointer

  /** {repo}/ab/cd/{oid}. */
  function ObjectKey(repo: nat, oid: string): string
    requires |oid| >= 4
  {
    Join([Decimal(repo), oid[0..2], oid[2..4], oid], '/')
  }

  /** {repo}/objects/{id}. */
  function UploadedObjectKey(repo: nat, id: string): string {
    Join([Decimal(repo), "objects", id], '/')
  }

  /** The keys, written out. */
  lemma {:induction false} KeyTexts(repo: nat, oid: string)
    requires |oid| >= 4
    ensures ObjectKey(repo, oid) == Decimal(repo) + "/" + oid[..2] + "/" + oid[2..4] + "/" + oid
    ensures UploadedObjectKey(repo, oid) == Decimal(repo) + "/objects/" + oid
  {
    JoinMore(oid[2..4], [oid]);
    JoinMore(oid[0..2], [oid[2..4], oid]);
    JoinMore(Decimal(repo), [oid[0..2], oid[2..4], oid]);
    JoinMore("objects", [oid]);
    JoinMore(Decimal(repo), ["objects", oid]);
    assert oid[0..2] == oid[..2];
  }

  lemma {:induction false} JoinMore(a: string, parts: seq<string>)
    requires parts != []
    ensures Join([a] + parts, '/') == a + "/" + Join(parts, '/')
  {
    assert ([a] + parts)[1..] == parts;
  }

  lemma DecimalInjective(m: nat, n: nat)
    ensures Decimal(m) == Decimal(n) ==> m == n
  {
    DecimalValue(m);
    DecimalValue(n);
  }

  lemma HexLacksSlash(s: string)
    requires ValidOID(s)
    ensures Lacks(s, '/') && Lacks(s[0..2], '/') && Lacks(s[2..4], '/')
  {
  }

  lemma ObjectKeyParts(repo: nat, oid: string)
    requires ValidOID(oid)
    ensures Split(ObjectKey(repo, oid), '/') == [Decimal(repo), oid[0..2], oid[2..4], oid]
  {
    HexLacksSlash(oid);
    assert Lacks(Decimal(repo), '/');
    SplitJoin([Decimal(repo), oid[0..2], oid[2..4], oid], '/');
  }

  lemma UploadedKeyParts(repo: nat, id: string)
    requires ValidOID(id)
    ensures Split(UploadedObjectKey(repo, id), '/') == [Decimal(repo), "objects", id]
  {
    HexLacksSlash(id);
    assert Lacks(Decimal(repo), '/');
    SplitJoin([Decimal(repo), "objects", id], '/');
  }

  /** Both key builders are injective and never give the same key. */
  lemma KeysAreDistinct(repo: nat, oid: string, repo': nat, oid': string)
    requires ValidOID(oid) && ValidOID(oid')
    ensures ObjectKey(repo, oid) == ObjectKey(repo', oid') <==> repo == repo' && oid == oid'
    ensures UploadedObjectKey(repo, oid) == UploadedObjectKey(repo', oid') <==> repo == repo' && oid == oid'
    ensures ObjectKey(repo, oid) != UploadedObjectKey(repo', oid')
  {
    ObjectKeyParts(repo, oid);
    ObjectKeyParts(repo', oid');
    UploadedKeyParts(repo, oid);
    UploadedKeyParts(repo', oid');
    DecimalInjective(repo, repo');
    if ObjectKey(repo, oid) == ObjectKey(repo', oid') {
      assert [Decimal(repo), oid[0..2], oid[2..4], oid][3] == [Decimal(repo'), oid'[0..2], oid'[2..4], oid'][3];
      assert [Decimal(repo), oid[0..2], oid[2..4], oid][0] == [Decimal(repo'), oid'[0..2], oid'[2..4], oid'][0];
    }
    if UploadedObjectKey(repo, oid) == UploadedObjectKey(repo', oid') {
      assert [Decimal(repo), "objects", oid][2] == [Decimal(repo'), "objects", oid'][2];
      assert [Decimal(repo), "objects", oid][0] == [Decimal(repo'), "objects", oid'][0];
    }
    assert |[Decimal(repo), oid[0..2], oid[2..4], oid]| == 4 && |[Decimal(repo'), "objects", oid']| == 3;
  }
}
