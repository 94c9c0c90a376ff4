/** Git LFS pointer files (Git LFS specification, section "The Pointer"). */
module LfsPointer {
  import opened Text
  import opened Results
  import opened GitIds

  const LFS_POINTER_MAX_SIZE := 1024
  const VERSION_LINE := "version https://git-lfs.github.com/spec/v1"
  const OID_PREFIX := "oid sha256:"
  const SIZE_PREFIX := "size "

  /** Size is a 64-bit number; -1 stands for a size line that has not been seen. */
  datatype Pointer = Pointer(oid: string, size: int)

  /** 64 lower-case hex digits. */
  predicate ValidOID(oid: string) {
    |oid| == 64 && IsHex(oid)
  }

  predicate ValidPointer(p: Pointer) {
    ValidOID(p.oid) && 0 <= p.size <= MAX_INT64
  }

  function Encode(p: Pointer): string
    requires p.size >= 0
  {
    VERSION_LINE + "\n" + OID_PREFIX + p.oid + "\n" + SIZE_PREFIX + Decimal(p.size) + "\n"
  }

  function TrimNewline(s: string): string {
    if s != "" && s[|s| - 1] == '\n' then s[..|s| - 1] else s
  }

  function CutPrefix(s: string, prefix: string): Option<string> {
    if prefix <= s then Some(s[|prefix|..]) else None
  }

  /** What the lines after the version say: the last oid and the last size win, a bad size is fatal. */
  function ReadLines(lines: seq<string>): Option<Pointer> {
    if lines == [] then Some(Pointer("", -1))
    else
      var last := lines[|lines| - 1];
      match ReadLines(lines[..|lines| - 1])
      case None => None
      case Some(p) =>
        if OID_PREFIX <= last then Some(p.(oid := last[|OID_PREFIX|..]))
        else if SIZE_PREFIX <= last then
          (match ParseInt64(last[|SIZE_PREFIX|..])
           case None => None
           case Some(n) => Some(p.(size := n)))
        else Some(p)
  }

  /** The pointer a blob is, if it is one. */
  function PointerIn(data: string): Option<Pointer> {
    var lines := Split(TrimNewline(data), '\n');
    if data == "" || |data| > LFS_POINTER_MAX_SIZE || |lines| < 3 || lines[0] != VERSION_LINE then None
    else
      match ReadLines(lines[1..])
      case None => None
      case Some(p) => if ValidOID(p.oid) && p.size >= 0 then Some(p) else None
  }

  method ParseLFSPointer(data: string) returns (ptr: Pointer, ok: bool)
    ensures ok <==> PointerIn(data).Some?
    ensures ok ==> PointerIn(data) == Some(ptr) && ValidPointer(ptr)
  {
    ptr := Pointer("", 0);
    if |data| == 0 || |data| > LFS_POINTER_MAX_SIZE {
      return ptr, false;
    }
    var lines := Split(TrimNewline(data), '\n');
    if |lines| < 3 || lines[0] != VERSION_LINE {
      return ptr, false;
    }
    ptr := Pointer("", -1);
    var rest := lines[1..];
    var i := 0;
    while i < |rest|
      invariant 0 <= i <= |rest|
      invariant ReadLines(rest[..i]) == Some(ptr)
      invariant ptr.size <= MAX_INT64
    {
      assert rest[..i + 1][..i] == rest[..i];
      var oid := CutPrefix(rest[i], OID_PREFIX);
      if oid.Some? {
        ptr := ptr.(oid := oid.value);
      } else {
        var raw := CutPrefix(rest[i], SIZE_PREFIX);
        if raw.Some? {
          var n := ParseInt64(raw.value);
          if n.None? {
            ReadLinesFails(rest, i + 1);
            return Pointer("", 0), false;
          }
          ptr := ptr.(size := n.value);
        }
      }
      i := i + 1;
    }
    assert rest[..i] == rest;
    if !ValidOID(ptr.oid) || ptr.size < 0 {
      return Pointer("", 0), false;
    }
    return ptr, true;
  }

  /** Once a line is fatal, so is every longer list. */
  lemma {:induction false} ReadLinesFails(lines: seq<string>, k: nat)
    requires k <= |lines| && ReadLines(lines[..k]) == None
    ensures ReadLines(lines) == None
    decreases |lines| - k
  {
    if k == |lines| {
      assert lines[..k] == lines;
    } else {
      assert lines[..k + 1][..k] == lines[..k];
      ReadLinesFails(lines, k + 1);
    }
  }

  lemma {:induction false} ReadSizeBounded(lines: seq<string>)
    ensures ReadLines(lines).Some? ==> ReadLines(lines).value.size <= MAX_INT64
  {
    if lines != [] {
      ReadSizeBounded(lines[..|lines| - 1]);
    }
  }

  lemma DecimalBounded(n: nat)
    requires n <= MAX_INT64
    ensures |Decimal(n)| <= 19
  {
    assert Power10(4) == 10_000;
    assert Power10(8) == 100_000_000;
    assert Power10(12) == 1_000_000_000_000;
    assert Power10(16) == 10_000_000_000_000_000;
    assert Power10(19) == 10_000_000_000_000_000_000;
    DecimalLength(n, 19);
  }

  lemma ThreeLines(a: string, b: string, c: string)
    requires Lacks(a, '\n') && Lacks(b, '\n') && Lacks(c, '\n')
    ensures Split(TrimNewline(a + "\n" + b + "\n" + c + "\n"), '\n') == [a, b, c]
  {
    assert TrimNewline(a + "\n" + b + "\n" + c + "\n") == a + ['\n'] + (b + ['\n'] + c);
    SplitConcat(a, b + ['\n'] + c, '\n');
    SplitConcat(b, c, '\n');
    SplitWhole(a, '\n');
    SplitWhole(b, '\n');
    SplitWhole(c, '\n');
  }

  lemma LinesAreWhole(p: Pointer)
    requires ValidPointer(p)
    ensures Lacks(VERSION_LINE, '\n') && Lacks(OID_PREFIX + p.oid, '\n') && Lacks(SIZE_PREFIX + Decimal(p.size), '\n')
  {
  }

  lemma EncodedLines(p: Pointer)
    requires ValidPointer(p)
    ensures Split(TrimNewline(Encode(p)), '\n') == [VERSION_LINE, OID_PREFIX + p.oid, SIZE_PREFIX + Decimal(p.size)]
  {
    var a, b, c := VERSION_LINE, OID_PREFIX + p.oid, SIZE_PREFIX + Decimal(p.size);
    LinesAreWhole(p);
    ThreeLines(a, b, c);
    assert Encode(p) == a + "\n" + b + "\n" + c + "\n";
  }

  /**
   * Pointer codec round trip: for every valid object id and every size from 0 to 2^63-1, the
   * encoding parses to the same pointer and has at most 144 bytes.
   */
  lemma PointerRoundTrip(p: Pointer)
    requires ValidPointer(p)
    ensures PointerIn(Encode(p)) == Some(p)
    ensures |Encode(p)| <= 144
  {
    EncodedLines(p);
    DecimalBounded(p.size);
    PrintedNumberReads(p.size);
    var oidLine, sizeLine := OID_PREFIX + p.oid, SIZE_PREFIX + Decimal(p.size);
    var lines := [oidLine, sizeLine];
    assert lines[..1] == [oidLine] && lines[..1][..0] == [];
    assert oidLine[|OID_PREFIX|..] == p.oid;
    assert sizeLine[|SIZE_PREFIX|..] == Decimal(p.size);
    assert sizeLine[0] == 's';
    assert ReadLines([oidLine]) == Some(Pointer(p.oid, -1));
    assert ReadLines(lines) == Some(p);
    assert Split(TrimNewline(Encode(p)), '\n')[1..] == lines;
  }

  /** What is read is a pointer, and its canonical encoding reads the same. */
  lemma ParsedIsCanonical(data: string)
    requires PointerIn(data).Some?
    ensures ValidPointer(PointerIn(data).value)
    ensures PointerIn(Encode(PointerIn(data).value)) == PointerIn(data)
  {
    ReadSizeBounded(Split(TrimNewline(data), '\n')[1..]);
    PointerRoundTrip(PointerIn(data).value);
  }

  // ------------------------------------------------------ the format, spelled out

  /** A pointer's text, and that it is read back. */
  lemma PointerText(oid: string, n: nat)
    requires |oid| == 64 && (forall i :: 0 <= i < 64 ==> '0' <= oid[i] <= '9' || 'a' <= oid[i] <= 'f') && n <= 0x7fff_ffff_ffff_ffff
    ensures var text := "version https://git-lfs.github.com/spec/v1" + "\n" + "oid sha256:" + oid + "\n" + "size " + Decimal(n) + "\n";
            Encode(Pointer(oid, n)) == text && PointerIn(text) == Some(Pointer(oid, n)) && |text| <= 144
  {
    PointerRoundTrip(Pointer(oid, n));
  }

  /** Line k is the last with a prefix. */
  ghost predicate IsLast(lines: seq<string>, prefix: string, k: int) {
    0 <= k < |lines| && prefix <= lines[k] && forall j :: k < j < |lines| ==> !(prefix <= lines[j])
  }

  ghost predicate Lack(lines: seq<string>, prefix: string) {
    forall j :: 0 <= j < |lines| ==> !(prefix <= lines[j])
  }

  /** Every line that starts like a size line is one. */
  ghost predicate SizesRead(lines: seq<string>, prefix: string) {
    forall j :: 0 <= j < |lines| && prefix <= lines[j] ==> ParseInt64(lines[j][|prefix|..]).Some?
  }

  ghost predicate LastOidIs(lines: seq<string>, prefix: string, oid: string) {
    exists k :: IsLast(lines, prefix, k) && lines[k][|prefix|..] == oid
  }

  ghost predicate LastSizeIs(lines: seq<string>, prefix: string, size: int) {
    exists k :: IsLast(lines, prefix, k) && ParseInt64(lines[k][|prefix|..]) == Some(size)
  }

  lemma {:induction false} OneMoreLine(init: seq<string>, last: string, prefix: string)
    ensures SizesRead(init + [last], prefix) <==> SizesRead(init, prefix) && (prefix <= last ==> ParseInt64(last[|prefix|..]).Some?)
    ensures prefix <= last ==> IsLast(init + [last], prefix, |init|) && !Lack(init + [last], prefix)
    ensures !(prefix <= last) ==> (Lack(init + [last], prefix) <==> Lack(init, prefix))
    ensures forall k :: IsLast(init, prefix, k) && !(prefix <= last) ==> IsLast(init + [last], prefix, k)
  {
    var all := init + [last];
    assert all[|init|] == last && forall j :: 0 <= j < |init| ==> init[j] == all[j];
  }

  lemma {:induction false} LastLines(init: seq<string>, last: string, prefix: string, oid: string, size: int)
    ensures prefix <= last ==> LastOidIs(init + [last], prefix, last[|prefix|..])
    ensures prefix <= last && ParseInt64(last[|prefix|..]) == Some(size) ==> LastSizeIs(init + [last], prefix, size)
    ensures !(prefix <= last) && LastOidIs(init, prefix, oid) ==> LastOidIs(init + [last], prefix, oid)
    ensures !(prefix <= last) && LastSizeIs(init, prefix, size) ==> LastSizeIs(init + [last], prefix, size)
  {
    OneMoreLine(init, last, prefix);
  }

  lemma {:induction false} OnlyOneLast(lines: seq<string>, prefix: string, oid: string, oid': string, size: int, size': int)
    ensures LastOidIs(lines, prefix, oid) && LastOidIs(lines, prefix, oid') ==> oid == oid'
    ensures LastSizeIs(lines, prefix, size) && LastSizeIs(lines, prefix, size') ==> size == size'
    ensures LastOidIs(lines, prefix, oid) || LastSizeIs(lines, prefix, size) ==> !Lack(lines, prefix)
  {
  }

  lemma OtherPrefix(line: string)
    ensures !(OID_PREFIX <= line && SIZE_PREFIX <= line)
  {
    assert OID_PREFIX <= line ==> line[0] == 'o';
    assert SIZE_PREFIX <= line ==> line[0] == 's';
  }

  /** The pointer under construction after a list of lines. */
  ghost predicate ReadsAs(lines: seq<string>, p: Pointer) {
    SizesRead(lines, SIZE_PREFIX) &&
    (LastOidIs(lines, OID_PREFIX, p.oid) || (p.oid == "" && Lack(lines, OID_PREFIX))) &&
    (LastSizeIs(lines, SIZE_PREFIX, p.size) || (p.size == -1 && Lack(lines, SIZE_PREFIX)))
  }

  lemma {:induction false} LinesRead(lines: seq<string>)
    ensures match ReadLines(lines) case Some(p) => ReadsAs(lines, p) case None => !SizesRead(lines, SIZE_PREFIX)
  {
    if lines != [] {
      var init, last := lines[..|lines| - 1], lines[|lines| - 1];
      assert lines == init + [last];
      LinesRead(init);
      OtherPrefix(last);
      OneMoreLine(init, last, SIZE_PREFIX);
      if ReadLines(lines).Some? {
        var before, p := ReadLines(init).value, ReadLines(lines).value;
        OneMoreLine(init, last, OID_PREFIX);
        LastLines(init, last, OID_PREFIX, before.oid, p.size);
        LastLines(init, last, SIZE_PREFIX, p.oid, p.size);
      }
    }
  }

  lemma {:induction false} LinesMean(lines: seq<string>, p: Pointer)
    requires ValidOID(p.oid) && p.size >= 0
    ensures ReadLines(lines) == Some(p) <==>
            SizesRead(lines, SIZE_PREFIX) && LastOidIs(lines, OID_PREFIX, p.oid) && LastSizeIs(lines, SIZE_PREFIX, p.size)
  {
    LinesRead(lines);
    if ReadLines(lines).Some? {
      var q := ReadLines(lines).value;
      OnlyOneLast(lines, OID_PREFIX, p.oid, q.oid, 0, 0);
      OnlyOneLast(lines, SIZE_PREFIX, "", "", p.size, q.size);
    }
  }

  /**
   * What is read as a pointer, and as which: at most 1024 bytes of three or more lines, the first the
   * version, the last oid line naming 64 lower-case hex digits, the last size line a number that is
   * not negative, and no size line anything but a number.
   */
  lemma {:induction false} PointersAccepted(data: string, p: Pointer)
    ensures var lines := Split(if data != "" && data[|data| - 1] == '\n' then data[..|data| - 1] else data, '\n');
            PointerIn(data) == Some(p) <==>
              1 <= |data| <= 1024 && |lines| >= 3 && lines[0] == "version https://git-lfs.github.com/spec/v1" &&
              SizesRead(lines[1..], "size ") && LastOidIs(lines[1..], "oid sha256:", p.oid) && LastSizeIs(lines[1..], "size ", p.size) &&
              |p.oid| == 64 && (forall i :: 0 <= i < 64 ==> '0' <= p.oid[i] <= '9' || 'a' <= p.oid[i] <= 'f') && p.size >= 0
  {
    if ValidOID(p.oid) && p.size >= 0 {
      LinesMean(Split(TrimNewline(data), '\n')[1..], p);
    }
  }
}
