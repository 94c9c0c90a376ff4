/** Reading git's NUL-separated raw and numstat diff formats. */
module DiffParsers {
  import opened Text
  import opened Results
  import opened GitIds
  import opened DiffTypes

  const MAX_DIFF_ENTRIES := 10_000

  // -------------------------------------------------------------- raw records

  datatype RawRecord = Malformed | Blank(rest: string) | Entry(file: DiffFile, rest: string)

  function UnlessZeros(s: string, zeros: string): string {
    if s == zeros then "" else s
  }

  /** The modes and blobs of a header line, with the status letter still to come. */
  function HeaderFile(fields: seq<string>): DiffFile
    requires |fields| == 5 && ":" <= fields[0]
  {
    DiffFile(NoStatus, "", "",
      UnlessZeros(fields[2], ZERO_SHA), UnlessZeros(fields[3], ZERO_SHA),
      UnlessZeros(fields[0][1..], "000000"), UnlessZeros(fields[1], "000000"),
      0, 0, false, None, NotOmitted)
  }

  predicate GoodHeader(fields: seq<string>) {
    |fields| == 5 && ":" <= fields[0] && IsHexSHA(fields[2]) && IsHexSHA(fields[3]) && fields[4] != ""
  }

  /** The file of a header, its first path and what follows. */
  function WithPaths(file: DiffFile, letter: char, path: string, rest: string): RawRecord {
    if letter == 'A' then Entry(file.(status := Added, newPath := path), rest)
    else if letter == 'M' then Entry(file.(status := Modified, oldPath := path, newPath := path), rest)
    else if letter == 'D' then Entry(file.(status := Deleted, oldPath := path), rest)
    else if letter == 'T' then Entry(file.(status := TypeChanged, oldPath := path, newPath := path), rest)
    else if letter != 'R' && letter != 'C' then Malformed
    else
      var second := Cut(rest, '\0');
      if second.None? || second.value.0 == "" then Malformed
      else Entry(file.(status := if letter == 'R' then Renamed else Copied, oldPath := path, newPath := second.value.0), second.value.1)
  }

  /** The first record of a raw diff. */
  function ReadRaw(out: string): (r: RawRecord)
    ensures !r.Malformed? ==> |r.rest| < |out|
  {
    var header := Cut(out, '\0');
    if header.None? then Malformed
    else if header.value.0 == "" then Blank(header.value.1)
    else if !GoodHeader(Fields(header.value.0)) then Malformed
    else
      var fields, path := Fields(header.value.0), Cut(header.value.1, '\0');
      if path.None? || path.value.0 == "" then Malformed
      else WithPaths(HeaderFile(fields), fields[4][0], path.value.0, path.value.1)
  }

  /** All files of a raw diff after those already read, cut off at the limit. */
  function RawFiles(out: string, files: seq<DiffFile>): Option<(seq<DiffFile>, bool)>
    decreases |out|
  {
    if out == "" then Some((files, false))
    else match ReadRaw(out)
      case Malformed => None
      case Blank(rest) => RawFiles(rest, files)
      case Entry(file, rest) =>
        if |files| == MAX_DIFF_ENTRIES then Some((files, true)) else RawFiles(rest, files + [file])
  }

  /** bytes.IndexByte from the offset, and the record up to it. */
  method NextNULRecord(out: string, offset: nat) returns (record: string, ok: bool, next: nat)
    requires offset <= |out|
    ensures match Cut(out[offset..], '\0')
            case None => !ok && next == offset
            case Some((head, tail)) => ok && record == head && offset < next <= |out| && out[next..] == tail
  {
    var end := offset;
    while end < |out| && out[end] != '\0'
      invariant offset <= end <= |out|
      invariant Lacks(out[offset..end], '\0')
    {
      end := end + 1;
    }
    if end == |out| {
      assert out[offset..] == out[offset..end];
      return "", false, offset;
    }
    assert out[offset..] == out[offset..end] + ['\0'] + out[end + 1..];
    CutFirst(out[offset..end], out[end + 1..], '\0');
    return out[offset..end], true, end + 1;
  }

  /** One record: the header, then one path or two. */
  method ParseRawRecord(out: string, offset: nat) returns (r: RawRecord, next: nat)
    requires offset < |out|
    ensures next <= |out| && r == ReadRaw(out[offset..])
    ensures !r.Malformed? ==> offset < next && out[next..] == r.rest
  {
    var header, ok, afterHeader := NextNULRecord(out, offset);
    if !ok {
      return Malformed, offset;
    }
    if |header| == 0 {
      return Blank(out[afterHeader..]), afterHeader;
    }
    var fields := Fields(header);
    if |fields| != 5 || !(":" <= fields[0]) {
      return Malformed, offset;
    }
    if !IsHexSHA(fields[2]) || !IsHexSHA(fields[3]) || fields[4] == "" {
      return Malformed, offset;
    }
    var path, found, rest := NextNULRecord(out, afterHeader);
    if !found || |path| == 0 {
      return Malformed, offset;
    }
    r, next := FinishRawRecord(out, rest, HeaderFile(fields), fields[4][0], path);
    if r.Malformed? {
      next := offset;
    }
  }

  /** The switch on the status letter. */
  method FinishRawRecord(out: string, offset: nat, file: DiffFile, letter: char, path: string) returns (r: RawRecord, next: nat)
    requires offset <= |out|
    ensures r == WithPaths(file, letter, path, out[offset..])
    ensures r.Entry? ==>
              (r.file.status == Added <==> letter == 'A') && (r.file.status == Modified <==> letter == 'M') &&
              (r.file.status == Deleted <==> letter == 'D') && (r.file.status == TypeChanged <==> letter == 'T') &&
              (r.file.status == Renamed <==> letter == 'R') && (r.file.status == Copied <==> letter == 'C')
    ensures !r.Malformed? ==> offset <= next <= |out| && out[next..] == r.rest
  {
    next := offset;
    if letter == 'A' {
      r := Entry(file.(status := Added, newPath := path), out[offset..]);
    } else if letter == 'M' {
      r := Entry(file.(status := Modified, oldPath := path, newPath := path), out[offset..]);
    } else if letter == 'D' {
      r := Entry(file.(status := Deleted, oldPath := path), out[offset..]);
    } else if letter == 'T' {
      r := Entry(file.(status := TypeChanged, oldPath := path, newPath := path), out[offset..]);
    } else if letter != 'R' && letter != 'C' {
      return Malformed, offset;
    } else {
      var second, ok, after := NextNULRecord(out, offset);
      if !ok || |second| == 0 {
        return Malformed, offset;
      }
      r := Entry(file.(status := if letter == 'R' then Renamed else Copied, oldPath := path, newPath := second), out[after..]);
      next := after;
    }
  }

  /** The files of a raw diff, and whether there were more than the limit; None when malformed. */
  method ParseRawDiff(out: string) returns (r: Option<(seq<DiffFile>, bool)>)
    ensures r == RawFiles(out, [])
  {
    var files: seq<DiffFile> := [];
    var offset := 0;
    assert out[0..] == out;
    while offset < |out|
      invariant offset <= |out|
      invariant RawFiles(out[offset..], files) == RawFiles(out, [])
    {
      var record, next := ParseRawRecord(out, offset);
      match record
      case Malformed =>
        return None;
      case Blank(_) =>
        offset := next;
      case Entry(file, _) =>
        if |files| == MAX_DIFF_ENTRIES {
          return Some((files, true));
        }
        files := files + [file];
        offset := next;
    }
    return Some((files, false));
  }

  // ------------------------------------------------------- printing raw records

  /** A change as git reports it: the file, the similarity score, and its line counts. */
  datatype Change = Change(file: DiffFile, score: string, stat: Stat)

  datatype Stat = Stat(additions: int, deletions: int, binary: bool)

  function Letter(status: DiffStatus): char {
    match status
    case Added => 'A'
    case Modified => 'M'
    case Deleted => 'D'
    case Renamed => 'R'
    case Copied => 'C'
    case TypeChanged => 'T'
    case NoStatus => 'X'
  }

  predicate TwoPaths(file: DiffFile) {
    file.status.Renamed? || file.status.Copied?
  }

  predicate GoodPath(path: string) {
    path != "" && Lacks(path, '\0')
  }

  predicate GoodBlob(sha: string) {
    sha == "" || (IsHexSHA(sha) && sha != ZERO_SHA)
  }

  predicate GoodMode(mode: string) {
    mode == "" || (IsWord(mode) && Lacks(mode, '\0') && mode != "000000")
  }

  /** A file as the raw diff alone describes it, with the paths its status calls for. */
  predicate RawFile(file: DiffFile) {
    GoodMode(file.oldMode) && GoodMode(file.newMode) && GoodBlob(file.oldBlobSHA) && GoodBlob(file.newBlobSHA) &&
    file.additions == 0 && file.deletions == 0 && !file.binary && file.patch == None && file.omitted == NotOmitted &&
    match file.status
    case NoStatus => false
    case Added => file.oldPath == "" && GoodPath(file.newPath)
    case Deleted => GoodPath(file.oldPath) && file.newPath == ""
    case Modified => GoodPath(file.newPath) && file.oldPath == file.newPath
    case TypeChanged => GoodPath(file.newPath) && file.oldPath == file.newPath
    case Renamed => GoodPath(file.oldPath) && GoodPath(file.newPath)
    case Copied => GoodPath(file.oldPath) && GoodPath(file.newPath)
  }

  predicate WellFormed(c: Change) {
    RawFile(c.file) && (c.score == "" || IsWord(c.score)) && Lacks(c.score, '\0') &&
    0 <= c.stat.additions <= MAX_INT64 && 0 <= c.stat.deletions <= MAX_INT64 &&
    (c.stat.binary ==> c.stat.additions == 0 && c.stat.deletions == 0)
  }

  function OrZeros(s: string, zeros: string): string {
    if s == "" then zeros else s
  }

  function PrintHeader(file: DiffFile, score: string): string {
    ":" + OrZeros(file.oldMode, "000000") + " " +
    (OrZeros(file.newMode, "000000") + " " +
     (OrZeros(file.oldBlobSHA, ZERO_SHA) + " " +
      (OrZeros(file.newBlobSHA, ZERO_SHA) + " " + ([Letter(file.status)] + score))))
  }

  /** The path a record shows first. */
  function FirstPath(file: DiffFile): string {
    if file.oldPath != "" then file.oldPath else file.newPath
  }

  function PrintRaw(c: Change): string {
    PrintHeader(c.file, c.score) + ['\0'] +
    (FirstPath(c.file) + ['\0'] + if TwoPaths(c.file) then c.file.newPath + ['\0'] + "" else "")
  }

  function PrintAllRaw(changes: seq<Change>): string {
    if changes == [] then "" else PrintRaw(changes[0]) + PrintAllRaw(changes[1..])
  }

  function FilesOf(changes: seq<Change>): seq<DiffFile> {
    seq(|changes|, i requires 0 <= i < |changes| => changes[i].file)
  }

  lemma BlobWord(sha: string)
    requires GoodBlob(sha)
    ensures var w := OrZeros(sha, ZERO_SHA); IsHexSHA(w) && IsWord(w) && Lacks(w, '\0') && UnlessZeros(w, ZERO_SHA) == sha
  {
  }

  lemma ModeWord(mode: string)
    requires GoodMode(mode)
    ensures var w := OrZeros(mode, "000000"); IsWord(w) && Lacks(w, '\0') && UnlessZeros(w, "000000") == mode
    ensures var w := ":" + OrZeros(mode, "000000"); IsWord(w) && ":" <= w && w[1..] == OrZeros(mode, "000000")
  {
  }

  lemma StatusWord(status: DiffStatus, score: string)
    requires (score == "" || IsWord(score)) && Lacks(score, '\0')
    ensures var w := [Letter(status)] + score; IsWord(w) && Lacks(w, '\0')
  {
  }

  lemma HeaderFields(a: string, b: string, c: string, d: string, e: string)
    requires IsWord(a) && IsWord(b) && IsWord(c) && IsWord(d) && IsWord(e)
    ensures Fields(a + " " + (b + " " + (c + " " + (d + " " + e)))) == [a, b, c, d, e]
  {
    FieldsStep(a, b + " " + (c + " " + (d + " " + e)));
    FieldsStep(b, c + " " + (d + " " + e));
    FieldsStep(c, d + " " + e);
    FieldsStep(d, e);
    FieldsOfWord(e);
  }

  lemma HeaderReads(file: DiffFile, score: string)
    requires RawFile(file) && (score == "" || IsWord(score)) && Lacks(score, '\0')
    ensures var fields := Fields(PrintHeader(file, score));
            GoodHeader(fields) && fields[4][0] == Letter(file.status) &&
            HeaderFile(fields) == file.(status := NoStatus, oldPath := "", newPath := "")
  {
    ModeWord(file.oldMode);
    ModeWord(file.newMode);
    BlobWord(file.oldBlobSHA);
    BlobWord(file.newBlobSHA);
    StatusWord(file.status, score);
    HeaderFields(":" + OrZeros(file.oldMode, "000000"), OrZeros(file.newMode, "000000"),
                 OrZeros(file.oldBlobSHA, ZERO_SHA), OrZeros(file.newBlobSHA, ZERO_SHA), [Letter(file.status)] + score);
  }

  lemma HeaderLacksNUL(file: DiffFile, score: string)
    requires RawFile(file) && (score == "" || IsWord(score)) && Lacks(score, '\0')
    ensures PrintHeader(file, score) != "" && Lacks(PrintHeader(file, score), '\0')
  {
    ModeWord(file.oldMode);
    ModeWord(file.newMode);
    BlobWord(file.oldBlobSHA);
    BlobWord(file.newBlobSHA);
    StatusWord(file.status, score);
    LacksInFive(":" + OrZeros(file.oldMode, "000000"), OrZeros(file.newMode, "000000"),
                OrZeros(file.oldBlobSHA, ZERO_SHA), OrZeros(file.newBlobSHA, ZERO_SHA), [Letter(file.status)] + score);
  }

  lemma LacksInFive(a: string, b: string, c: string, d: string, e: string)
    requires Lacks(a, '\0') && Lacks(b, '\0') && Lacks(c, '\0') && Lacks(d, '\0') && Lacks(e, '\0')
    ensures Lacks(a + " " + (b + " " + (c + " " + (d + " " + e))), '\0')
  {
  }

  /** A printed record is read back, and only it is consumed. */
  lemma RecordReads(c: Change, rest: string)
    requires WellFormed(c)
    ensures ReadRaw(PrintRaw(c) + rest) == Entry(c.file, rest)
  {
    var header, first := PrintHeader(c.file, c.score), FirstPath(c.file);
    HeaderReads(c.file, c.score);
    HeaderLacksNUL(c.file, c.score);
    RecordPrints(header, first, c.file.newPath, TwoPaths(c.file), rest);
    RawReadsPaths(header, first, AfterFirst(c.file, rest));
    PathsRestore(c.file, rest);
  }

  /** What follows the first path of a record: the second path, if there is one, and the rest. */
  function AfterFirst(file: DiffFile, rest: string): string {
    if TwoPaths(file) then file.newPath + ['\0'] + rest else rest
  }

  lemma RecordPrints(header: string, first: string, second: string, two: bool, rest: string)
    ensures header + ['\0'] + (first + ['\0'] + if two then second + ['\0'] + "" else "") + rest ==
            header + ['\0'] + (first + ['\0'] + if two then second + ['\0'] + rest else rest)
  {
  }

  /** The status letter and the paths after it give back the status and the paths. */
  lemma PathsRestore(file: DiffFile, rest: string)
    requires RawFile(file)
    ensures WithPaths(file.(status := NoStatus, oldPath := "", newPath := ""), Letter(file.status), FirstPath(file), AfterFirst(file, rest)) ==
            Entry(file, rest)
  {
    if TwoPaths(file) {
      CutFirst(file.newPath, rest, '\0');
    }
  }

  lemma RawReadsPaths(header: string, path: string, tail: string)
    requires header != "" && Lacks(header, '\0') && GoodHeader(Fields(header)) && GoodPath(path)
    ensures ReadRaw(header + ['\0'] + (path + ['\0'] + tail)) ==
            WithPaths(HeaderFile(Fields(header)), Fields(header)[4][0], path, tail)
  {
    CutFirst(header, path + ['\0'] + tail, '\0');
    CutFirst(path, tail, '\0');
  }

  ghost predicate IsZeros(s: string) {
    forall i :: 0 <= i < |s| ==> s[i] == '0'
  }

  lemma SameZeros(s: string, zeros: string)
    requires |s| == |zeros| && IsZeros(zeros)
    ensures IsZeros(s) <==> s == zeros
  {
  }

  /** What a header says: old then new mode, old then new blob, zeros standing for none; the rest is not known yet. */
  lemma HeaderMeans(fields: seq<string>)
    requires GoodHeader(fields) && |fields[0]| == |fields[1]| + 1 == 7
    ensures HeaderFile(fields) ==
            DiffFile(NoStatus, "", "",
                     if IsZeros(fields[2]) then "" else fields[2], if IsZeros(fields[3]) then "" else fields[3],
                     if IsZeros(fields[0][1..]) then "" else fields[0][1..], if IsZeros(fields[1]) then "" else fields[1],
                     0, 0, false, None, NotOmitted)
  {
    SameZeros(fields[2], ZERO_SHA);
    SameZeros(fields[3], ZERO_SHA);
    SameZeros(fields[1], "000000");
    SameZeros(fields[0][1..], "000000");
  }

  // ------------------------------------------------------- what is refused

  ghost predicate IsRecord(out: string, record: string, tail: string) {
    out == record + ['\0'] + tail && Lacks(record, '\0')
  }

  /** Five words: a mode after a colon, a mode, two object ids, and a status. */
  ghost predicate IsRawHeader(header: string) {
    header != "" &&
    var words := Fields(header);
    |words| == 5 && words[0] != "" && words[0][0] == ':' && |words[2]| == 40 && |words[3]| == 40 &&
    (forall i :: 0 <= i < 40 ==> words[2][i] in "0123456789abcdef" && words[3][i] in "0123456789abcdef") &&
    words[4] != "" && words[4][0] in "AMDTRC"
  }

  ghost predicate IsRawRecord(header: string, path: string, tail: string) {
    IsRawHeader(header) && path != "" &&
    (Fields(header)[4][0] in "RC" ==> exists second, rest :: IsRecord(tail, second, rest) && second != "")
  }

  ghost predicate StartsWithRawRecord(out: string) {
    exists header, path, rest, tail :: IsRecord(out, header, rest) && IsRecord(rest, path, tail) && IsRawRecord(header, path, tail)
  }

  /** A record is accepted exactly when it has a header, a path, and for a rename or copy a second path; an empty one is skipped. */
  lemma RawRecordsAccepted(out: string)
    ensures ReadRaw(out).Entry? <==> StartsWithRawRecord(out)
    ensures ReadRaw(out).Blank? <==> out != "" && out[0] == '\0'
  {
    if ReadRaw(out).Entry? {
      RawRecordRead(out);
    }
    if StartsWithRawRecord(out) {
      var header, path, rest, tail :| IsRecord(out, header, rest) && IsRecord(rest, path, tail) && IsRawRecord(header, path, tail);
      RawRecordGood(out, header, path, rest, tail);
    }
  }

  lemma HeadersMeet(header: string)
    ensures IsRawHeader(header) <==>
            header != "" && GoodHeader(Fields(header)) && Fields(header)[4][0] in "AMDTRC"
  {
    assert forall c: char :: c in "0123456789abcdef" <==> '0' <= c <= '9' || 'a' <= c <= 'f';
  }

  lemma RawRecordRead(out: string)
    requires ReadRaw(out).Entry?
    ensures StartsWithRawRecord(out)
  {
    var (header, rest) := Cut(out, '\0').value;
    var (path, tail) := Cut(rest, '\0').value;
    HeadersMeet(header);
    SecondPath(HeaderFile(Fields(header)), Fields(header)[4][0], path, tail);
    assert IsRecord(out, header, rest) && IsRecord(rest, path, tail) && IsRawRecord(header, path, tail);
  }

  lemma RawRecordGood(out: string, header: string, path: string, rest: string, tail: string)
    requires IsRecord(out, header, rest) && IsRecord(rest, path, tail) && IsRawRecord(header, path, tail)
    ensures ReadRaw(out).Entry?
  {
    HeadersMeet(header);
    RawReadsPaths(header, path, tail);
    PathsFollow(HeaderFile(Fields(header)), Fields(header)[4][0], path, tail);
  }

  lemma SecondPath(file: DiffFile, letter: char, path: string, tail: string)
    requires WithPaths(file, letter, path, tail).Entry?
    ensures letter in "AMDTRC" && (letter in "RC" ==> exists second, rest :: IsRecord(tail, second, rest) && second != "")
  {
    if letter in "RC" {
      var (second, after) := Cut(tail, '\0').value;
      assert IsRecord(tail, second, after);
    }
  }

  lemma PathsFollow(file: DiffFile, letter: char, path: string, tail: string)
    requires letter in "AMDTRC" && (letter in "RC" ==> exists second, rest :: IsRecord(tail, second, rest) && second != "")
    ensures WithPaths(file, letter, path, tail).Entry?
  {
    if letter in "RC" {
      var second, after :| IsRecord(tail, second, after) && second != "";
      CutFirst(second, after, '\0');
    }
  }

  function AtMost(n: nat, limit: nat): nat {
    if n <= limit then n else limit
  }

  /** The files already read, then those of the changes, up to the limit; and whether it was passed. */
  function ReadBack(changes: seq<Change>, files: seq<DiffFile>): (seq<DiffFile>, bool)
    requires |files| <= MAX_DIFF_ENTRIES
  {
    (files + FilesOf(changes)[..AtMost(|changes|, MAX_DIFF_ENTRIES - |files|)], |files| + |changes| > MAX_DIFF_ENTRIES)
  }

  lemma {:induction false} RawFilesRead(changes: seq<Change>, files: seq<DiffFile>)
    requires forall i :: 0 <= i < |changes| ==> WellFormed(changes[i])
    requires |files| <= MAX_DIFF_ENTRIES
    ensures RawFiles(PrintAllRaw(changes), files) == Some(ReadBack(changes, files))
    decreases changes
  {
    if changes != [] {
      RawFilesStep(changes[0], PrintAllRaw(changes[1..]), files);
      if |files| < MAX_DIFF_ENTRIES {
        RawFilesRead(changes[1..], files + [changes[0].file]);
      }
    }
    ReadBackStep(changes, files);
  }

  lemma {:induction false} ReadBackStep(changes: seq<Change>, files: seq<DiffFile>)
    requires |files| <= MAX_DIFF_ENTRIES
    ensures ReadBack(changes, files) ==
            if changes == [] then (files, false)
            else if |files| == MAX_DIFF_ENTRIES then (files, true)
            else ReadBack(changes[1..], files + [changes[0].file])
  {
    if changes == [] || |files| == MAX_DIFF_ENTRIES {
      assert files + FilesOf(changes)[..0] == files;
    } else {
      FilesStep(changes, files, AtMost(|changes| - 1, MAX_DIFF_ENTRIES - |files| - 1));
    }
  }

  /** Reading on after printed changes. */
  lemma {:induction false} RawFilesOn(changes: seq<Change>, tail: string, files: seq<DiffFile>)
    requires forall i :: 0 <= i < |changes| ==> WellFormed(changes[i])
    requires |files| + |changes| <= MAX_DIFF_ENTRIES
    ensures RawFiles(PrintAllRaw(changes) + tail, files) == RawFiles(tail, files + FilesOf(changes))
    decreases changes
  {
    if changes == [] {
      assert PrintAllRaw(changes) + tail == tail && files + FilesOf(changes) == files;
    } else {
      assert PrintAllRaw(changes) + tail == PrintRaw(changes[0]) + (PrintAllRaw(changes[1..]) + tail);
      RawFilesStep(changes[0], PrintAllRaw(changes[1..]) + tail, files);
      RawFilesOn(changes[1..], tail, files + [changes[0].file]);
      AllFilesStep(changes, files);
    }
  }

  lemma {:induction false} AllFilesStep(changes: seq<Change>, files: seq<DiffFile>)
    requires changes != []
    ensures files + [changes[0].file] + FilesOf(changes[1..]) == files + FilesOf(changes)
  {
    var n := |changes| - 1;
    FilesStep(changes, files, n);
    assert FilesOf(changes[1..])[..n] == FilesOf(changes[1..]) && FilesOf(changes)[..n + 1] == FilesOf(changes);
  }

  /**
   * After any ten thousand or fewer well-formed changes, a record that is none makes the whole output
   * malformed, and an empty one is skipped.
   */
  lemma {:induction false} MalformedRawRefused(changes: seq<Change>, tail: string)
    requires (forall i :: 0 <= i < |changes| ==> WellFormed(changes[i])) && |changes| <= 10_000
    ensures tail != "" && tail[0] != '\0' && !StartsWithRawRecord(tail) ==> RawFiles(PrintAllRaw(changes) + tail, []) == None
    ensures RawFiles(PrintAllRaw(changes) + (['\0'] + tail), []) == RawFiles(PrintAllRaw(changes) + tail, [])
  {
    RawFilesOn(changes, tail, []);
    RawFilesOn(changes, ['\0'] + tail, []);
    RawRecordsAccepted(tail);
    BlankSkipped(tail, [] + FilesOf(changes));
  }

  lemma {:induction false} BlankSkipped(tail: string, files: seq<DiffFile>)
    ensures RawFiles(['\0'] + tail, files) == RawFiles(tail, files)
  {
    CutFirst("", tail, '\0');
    assert "" + ['\0'] + tail == ['\0'] + tail;
  }

  lemma {:induction false} RawFilesStep(c: Change, rest: string, files: seq<DiffFile>)
    requires WellFormed(c)
    ensures RawFiles(PrintRaw(c) + rest, files) ==
            if |files| == MAX_DIFF_ENTRIES then Some((files, true)) else RawFiles(rest, files + [c.file])
  {
    RecordReads(c, rest);
  }

  lemma {:induction false} FilesStep(changes: seq<Change>, files: seq<DiffFile>, n: nat)
    requires changes != [] && n < |changes|
    ensures files + [changes[0].file] + FilesOf(changes[1..])[..n] == files + FilesOf(changes)[..n + 1]
  {
  }

  /**
   * The raw parser inverts the raw format: printing any list of well-formed changes and parsing
   * gives back the list, or its first 10,000 with the truncated flag.
   */
  lemma {:induction false} RawRoundTrip(changes: seq<Change>)
    requires forall i :: 0 <= i < |changes| ==> WellFormed(changes[i])
    ensures RawFiles(PrintAllRaw(changes), []) ==
            Some((FilesOf(changes)[..AtMost(|changes|, MAX_DIFF_ENTRIES)], |changes| > MAX_DIFF_ENTRIES))
  {
    RawFilesRead(changes, []);
    ReadBackFromNothing(changes);
  }

  lemma {:induction false} ReadBackFromNothing(changes: seq<Change>)
    ensures ReadBack(changes, []) ==
            (FilesOf(changes)[..AtMost(|changes|, MAX_DIFF_ENTRIES)], |changes| > MAX_DIFF_ENTRIES)
  {
    var files := FilesOf(changes)[..AtMost(|changes|, MAX_DIFF_ENTRIES)];
    assert [] + files == files;
  }

  // ------------------------------------------------------------------ numstat

  /** The key under which the counts of a file are looked up. */
  function DiffFileKey(file: DiffFile): string {
    if TwoPaths(file) then "r\0" + file.oldPath + "\0" + file.newPath
    else if file.newPath != "" then "p\0" + file.newPath
    else "p\0" + file.oldPath
  }

  /** Keys tell apart exactly what git's two formats tell apart: one path, or a pair of paths. */
  lemma KeysTellFilesApart(a: DiffFile, b: DiffFile)
    requires RawFile(a) && RawFile(b)
    ensures DiffFileKey(a) == DiffFileKey(b) <==>
            if TwoPaths(a) then TwoPaths(b) && a.oldPath == b.oldPath && a.newPath == b.newPath
            else !TwoPaths(b) && FirstPath(a) == FirstPath(b)
  {
    if TwoPaths(a) && TwoPaths(b) {
      if DiffFileKey(a) == DiffFileKey(b) {
        var k := DiffFileKey(a);
        assert k[2..] == a.oldPath + ['\0'] + a.newPath;
        assert k[2..] == b.oldPath + ['\0'] + b.newPath;
        CutFirst(a.oldPath, a.newPath, '\0');
        CutFirst(b.oldPath, b.newPath, '\0');
      }
    } else if !TwoPaths(a) && !TwoPaths(b) {
      assert DiffFileKey(a) == "p\0" + FirstPath(a) && DiffFileKey(b) == "p\0" + FirstPath(b);
      assert DiffFileKey(a)[2..] == FirstPath(a) && DiffFileKey(b)[2..] == FirstPath(b);
    } else {
      assert DiffFileKey(a)[0] != DiffFileKey(b)[0];
    }
  }

  /** A numstat record: its key, its counts, and what follows. */
  datatype StatRecord = BadStat | StatOf(key: string, stat: Stat, rest: string)

  function Counts(add: string, delete: string): Option<Stat> {
    if add == "-" && delete == "-" then Some(Stat(0, 0, true))
    else if ParseInt64(add).None? || ParseInt64(delete).None? then None
    else Some(Stat(ParseInt64(add).value, ParseInt64(delete).value, false))
  }

  /** Two NUL-terminated paths, neither empty. */
  function TwoRecords(out: string): Option<(string, string, string)> {
    var first := Cut(out, '\0');
    if first.None? || first.value.0 == "" then None
    else
      var second := Cut(first.value.1, '\0');
      if second.None? || second.value.0 == "" then None else Some((first.value.0, second.value.0, second.value.1))
  }

  function ReadStat(out: string): (r: StatRecord)
    ensures r.StatOf? ==> |r.rest| < |out|
  {
    var record := Cut(out, '\0');
    if record.None? then BadStat
    else
      var add := Cut(record.value.0, '\t');
      if add.None? then BadStat
      else
        var delete := Cut(add.value.1, '\t');
        if delete.None? then BadStat
        else if delete.value.1 == "" then
          var paths := TwoRecords(record.value.1);
          if paths.None? || Counts(add.value.0, delete.value.0).None? then BadStat
          else StatOf("r\0" + paths.value.0 + "\0" + paths.value.1, Counts(add.value.0, delete.value.0).value, paths.value.2)
        else if Counts(add.value.0, delete.value.0).None? then BadStat
        else StatOf("p\0" + delete.value.1, Counts(add.value.0, delete.value.0).value, record.value.1)
  }

  /** Counts by key, reading on until the limit of keys or the end. */
  function Stats(out: string, stats: map<string, Stat>, limit: nat): Option<map<string, Stat>>
    decreases |out|
  {
    if out == "" || |stats| >= limit then Some(stats)
    else
      match ReadStat(out)
      case BadStat => None
      case StatOf(key, stat, rest) => Stats(rest, stats[key := stat], limit)
  }

  method ParseNumstatRecord(out: string, offset: nat) returns (r: StatRecord, next: nat)
    requires offset < |out|
    ensures next <= |out| && r == ReadStat(out[offset..])
    ensures r.StatOf? ==> offset < next && out[next..] == r.rest
  {
    var record, ok, rest := NextNULRecord(out, offset);
    if !ok {
      return BadStat, offset;
    }
    var add := Cut(record, '\t');
    if add.None? {
      return BadStat, offset;
    }
    var delete := Cut(add.value.1, '\t');
    if delete.None? {
      return BadStat, offset;
    }
    var key := "p\0" + delete.value.1;
    if |delete.value.1| == 0 {
      var oldPath, found, afterOld := NextNULRecord(out, rest);
      if !found || |oldPath| == 0 {
        return BadStat, offset;
      }
      var newPath, foundNew, afterNew := NextNULRecord(out, afterOld);
      if !foundNew || |newPath| == 0 {
        return BadStat, offset;
      }
      key := "r\0" + oldPath + "\0" + newPath;
      rest := afterNew;
    }
    var stat := Counts(add.value.0, delete.value.0);
    if stat.None? {
      return BadStat, offset;
    }
    return StatOf(key, stat.value, out[rest..]), rest;
  }

  method ParseNumstat(out: string, limit: nat) returns (r: Option<map<string, Stat>>)
    ensures r == Stats(out, map[], limit)
  {
    var stats: map<string, Stat> := map[];
    var offset := 0;
    assert out[0..] == out;
    while offset < |out| && |stats| < limit
      invariant offset <= |out|
      invariant Stats(out[offset..], stats, limit) == Stats(out, map[], limit)
    {
      var record, next := ParseNumstatRecord(out, offset);
      if record.BadStat? {
        return None;
      }
      stats := stats[record.key := record.stat];
      offset := next;
    }
    return Some(stats);
  }

  function PrintCount(stat: Stat, n: int): string
    requires n >= 0
  {
    if stat.binary then "-" else Decimal(n)
  }

  function PrintStat(c: Change): string
    requires WellFormed(c)
  {
    var counts := PrintCount(c.stat, c.stat.additions) + ['\t'] + (PrintCount(c.stat, c.stat.deletions) + ['\t'] +
      if TwoPaths(c.file) then "" else FirstPath(c.file));
    counts + ['\0'] + if TwoPaths(c.file) then c.file.oldPath + ['\0'] + (c.file.newPath + ['\0'] + "") else ""
  }

  function PrintAllStats(changes: seq<Change>): string
    requires forall i :: 0 <= i < |changes| ==> WellFormed(changes[i])
  {
    if changes == [] then "" else PrintStat(changes[0]) + PrintAllStats(changes[1..])
  }

  lemma CountReads(stat: Stat, n: int)
    requires 0 <= n <= MAX_INT64
    ensures var s := PrintCount(stat, n); Lacks(s, '\t') && Lacks(s, '\0')
    ensures !stat.binary ==> ParseInt64(PrintCount(stat, n)) == Some(n) && PrintCount(stat, n) != "-"
  {
    PrintedNumberReads(n);
    assert AllDigits(Decimal(n));
  }

  lemma StatReads(c: Change, rest: string)
    requires WellFormed(c)
    ensures ReadStat(PrintStat(c) + rest) == StatOf(DiffFileKey(c.file), c.stat, rest)
  {
    var add, delete := PrintCount(c.stat, c.stat.additions), PrintCount(c.stat, c.stat.deletions);
    CountReads(c.stat, c.stat.additions);
    CountReads(c.stat, c.stat.deletions);
    assert Counts(add, delete) == Some(c.stat);
    StatPrints(c, rest);
    if TwoPaths(c.file) {
      TwoPathStatReads(add, delete, c.file.oldPath, c.file.newPath, rest);
    } else {
      OnePathStatReads(add, delete, FirstPath(c.file), rest);
    }
  }

  lemma StatPrints(c: Change, rest: string)
    requires WellFormed(c)
    ensures var add, delete := PrintCount(c.stat, c.stat.additions), PrintCount(c.stat, c.stat.deletions);
            PrintStat(c) + rest ==
            if TwoPaths(c.file) then
              add + ['\t'] + (delete + ['\t'] + "") + ['\0'] + (c.file.oldPath + ['\0'] + (c.file.newPath + ['\0'] + rest))
            else
              add + ['\t'] + (delete + ['\t'] + FirstPath(c.file)) + ['\0'] + rest
  {
  }

  lemma RecordCuts(add: string, delete: string, path: string, tail: string)
    requires Lacks(add, '\t') && Lacks(delete, '\t') && Lacks(add, '\0') && Lacks(delete, '\0') && Lacks(path, '\0')
    ensures var record := add + ['\t'] + (delete + ['\t'] + path);
            Cut(record + ['\0'] + tail, '\0') == Some((record, tail)) &&
            Cut(record, '\t') == Some((add, delete + ['\t'] + path)) &&
            Cut(delete + ['\t'] + path, '\t') == Some((delete, path))
  {
    CutFirst(add + ['\t'] + (delete + ['\t'] + path), tail, '\0');
    CutFirst(add, delete + ['\t'] + path, '\t');
    CutFirst(delete, path, '\t');
  }

  lemma OnePathStatReads(add: string, delete: string, path: string, rest: string)
    requires Lacks(add, '\t') && Lacks(delete, '\t') && Lacks(add, '\0') && Lacks(delete, '\0')
    requires GoodPath(path) && Counts(add, delete).Some?
    ensures ReadStat(add + ['\t'] + (delete + ['\t'] + path) + ['\0'] + rest) == StatOf("p\0" + path, Counts(add, delete).value, rest)
  {
    RecordCuts(add, delete, path, rest);
  }

  lemma TwoPathStatReads(add: string, delete: string, oldPath: string, newPath: string, rest: string)
    requires Lacks(add, '\t') && Lacks(delete, '\t') && Lacks(add, '\0') && Lacks(delete, '\0')
    requires GoodPath(oldPath) && GoodPath(newPath) && Counts(add, delete).Some?
    ensures ReadStat(add + ['\t'] + (delete + ['\t'] + "") + ['\0'] + (oldPath + ['\0'] + (newPath + ['\0'] + rest))) ==
            StatOf("r\0" + oldPath + "\0" + newPath, Counts(add, delete).value, rest)
  {
    RecordCuts(add, delete, "", oldPath + ['\0'] + (newPath + ['\0'] + rest));
    CutFirst(oldPath, newPath + ['\0'] + rest, '\0');
    CutFirst(newPath, rest, '\0');
  }

  /** Two counts of "-", or two numbers of 64 bits. */
  ghost predicate AreCounts(add: string, delete: string) {
    (add == "-" && delete == "-") || (ParseInt64(add).Some? && ParseInt64(delete).Some?)
  }

  ghost predicate IsStatLine(line: string, add: string, delete: string, path: string) {
    line == add + ['\t'] + (delete + ['\t'] + path) && Lacks(add, '\t') && Lacks(delete, '\t') && AreCounts(add, delete)
  }

  ghost predicate HasTwoPaths(out: string) {
    exists first, rest, second, tail :: IsRecord(out, first, rest) && IsRecord(rest, second, tail) && first != "" && second != ""
  }

  ghost predicate StartsWithStatRecord(out: string) {
    exists line, rest, add, delete, path :: IsRecord(out, line, rest) && IsStatLine(line, add, delete, path) && (path == "" ==> HasTwoPaths(rest))
  }

  /** A numstat record is accepted exactly when it has two counts and a path, or two counts and then two paths. */
  lemma StatRecordsAccepted(out: string)
    ensures ReadStat(out).StatOf? <==> StartsWithStatRecord(out)
  {
    if ReadStat(out).StatOf? {
      StatRecordRead(out);
    }
    forall line, rest, add, delete, path | IsRecord(out, line, rest) && IsStatLine(line, add, delete, path) && (path == "" ==> HasTwoPaths(rest))
      ensures ReadStat(out).StatOf?
    {
      StatRecordGood(out, line, rest, add, delete, path);
    }
  }

  lemma StatRecordRead(out: string)
    requires ReadStat(out).StatOf?
    ensures StartsWithStatRecord(out)
  {
    var (line, rest) := Cut(out, '\0').value;
    var (add, after) := Cut(line, '\t').value;
    var (delete, path) := Cut(after, '\t').value;
    if path == "" {
      var (first, more) := Cut(rest, '\0').value;
      var (second, tail) := Cut(more, '\0').value;
      assert IsRecord(rest, first, more) && IsRecord(more, second, tail);
    }
    assert IsRecord(out, line, rest) && IsStatLine(line, add, delete, path);
  }

  lemma StatRecordGood(out: string, line: string, rest: string, add: string, delete: string, path: string)
    requires IsRecord(out, line, rest) && IsStatLine(line, add, delete, path) && (path == "" ==> HasTwoPaths(rest))
    ensures ReadStat(out).StatOf?
  {
    CutFirst(line, rest, '\0');
    CutFirst(add, delete + ['\t'] + path, '\t');
    CutFirst(delete, path, '\t');
    if path == "" {
      var first, more, second, tail :| IsRecord(rest, first, more) && IsRecord(more, second, tail) && first != "" && second != "";
      CutFirst(first, more, '\0');
      CutFirst(second, tail, '\0');
    }
  }

  function WithStat(file: DiffFile, stat: Stat): DiffFile {
    file.(additions := stat.additions, deletions := stat.deletions, binary := stat.binary)
  }

  /** The file with these counts and nothing else changed. */
  ghost predicate HasCounts(counted: DiffFile, file: DiffFile, stat: Stat) {
    counted.additions == stat.additions && counted.deletions == stat.deletions && counted.binary == stat.binary &&
    SamePlace(counted, file) && counted.patch == file.patch && counted.omitted == file.omitted
  }

  /** The same status, paths, modes and blobs. */
  ghost predicate SamePlace(a: DiffFile, b: DiffFile) {
    a.status == b.status && a.oldPath == b.oldPath && a.newPath == b.newPath &&
    a.oldMode == b.oldMode && a.newMode == b.newMode && a.oldBlobSHA == b.oldBlobSHA && a.newBlobSHA == b.newBlobSHA
  }

  /** Gives every file its counts; None when some file has none. */
  method AttachStats(files: seq<DiffFile>, stats: map<string, Stat>) returns (r: Option<seq<DiffFile>>)
    ensures r.Some? <==> forall i :: 0 <= i < |files| ==> DiffFileKey(files[i]) in stats
    ensures r.Some? ==> |r.value| == |files| && forall i :: 0 <= i < |files| ==> r.value[i] == WithStat(files[i], stats[DiffFileKey(files[i])])
    ensures r.Some? ==> forall i :: 0 <= i < |files| ==> HasCounts(r.value[i], files[i], stats[DiffFileKey(files[i])])
  {
    var out := files;
    var i := 0;
    while i < |files|
      invariant 0 <= i <= |files| == |out|
      invariant forall j :: 0 <= j < i ==> DiffFileKey(files[j]) in stats && out[j] == WithStat(files[j], stats[DiffFileKey(files[j])])
      invariant forall j :: i <= j < |files| ==> out[j] == files[j]
    {
      var key := DiffFileKey(out[i]);
      if key !in stats {
        return None;
      }
      out := out[i := WithStat(out[i], stats[key])];
      i := i + 1;
    }
    return Some(out);
  }

  /** The counts of changes added to a map, in order. */
  function StatsOf(changes: seq<Change>, stats: map<string, Stat>): map<string, Stat> {
    if changes == [] then stats else StatsOf(changes[1..], stats[DiffFileKey(changes[0].file) := changes[0].stat])
  }

  ghost predicate DistinctKeys(changes: seq<Change>) {
    forall i, j :: 0 <= i < j < |changes| ==> DiffFileKey(changes[i].file) != DiffFileKey(changes[j].file)
  }

  ghost predicate NewKeys(changes: seq<Change>, stats: map<string, Stat>) {
    forall i :: 0 <= i < |changes| ==> DiffFileKey(changes[i].file) !in stats
  }

  /** The counts already read, then those of as many changes as the limit leaves room for. */
  function WithRoom(changes: seq<Change>, stats: map<string, Stat>, limit: nat): map<string, Stat>
    requires |stats| <= limit
  {
    StatsOf(changes[..AtMost(|changes|, limit - |stats|)], stats)
  }

  lemma {:induction false} StatsRead(changes: seq<Change>, stats: map<string, Stat>, limit: nat)
    requires forall i :: 0 <= i < |changes| ==> WellFormed(changes[i])
    requires DistinctKeys(changes) && NewKeys(changes, stats) && |stats| <= limit
    ensures Stats(PrintAllStats(changes), stats, limit) == Some(WithRoom(changes, stats, limit))
    decreases changes
  {
    WithRoomStep(changes, stats, limit);
    if changes != [] && |stats| < limit {
      StatsStep(changes[0], PrintAllStats(changes[1..]), stats, limit);
      KeysStep(changes, stats);
      StatsRead(changes[1..], stats[DiffFileKey(changes[0].file) := changes[0].stat], limit);
    }
  }

  lemma {:induction false} WithRoomStep(changes: seq<Change>, stats: map<string, Stat>, limit: nat)
    requires |stats| <= limit && NewKeys(changes, stats)
    ensures changes == [] || |stats| == limit ==> WithRoom(changes, stats, limit) == stats
    ensures changes != [] && |stats| < limit ==>
              var more := stats[DiffFileKey(changes[0].file) := changes[0].stat];
              |more| <= limit && WithRoom(changes, stats, limit) == WithRoom(changes[1..], more, limit)
  {
    if changes == [] || |stats| == limit {
      assert changes[..0] == [];
    } else {
      OneMoreKey(stats, DiffFileKey(changes[0].file), changes[0].stat);
      StatsOfStep(changes, stats, AtMost(|changes| - 1, limit - |stats| - 1));
    }
  }

  lemma {:induction false} KeysStep(changes: seq<Change>, stats: map<string, Stat>)
    requires changes != [] && DistinctKeys(changes) && NewKeys(changes, stats)
    ensures DistinctKeys(changes[1..]) && NewKeys(changes[1..], stats[DiffFileKey(changes[0].file) := changes[0].stat])
  {
  }

  lemma {:induction false} StatsOfStep(changes: seq<Change>, stats: map<string, Stat>, n: nat)
    requires n < |changes|
    ensures StatsOf(changes[..n + 1], stats) == StatsOf(changes[1..][..n], stats[DiffFileKey(changes[0].file) := changes[0].stat])
  {
    assert changes[..n + 1][1..] == changes[1..][..n];
  }

  lemma {:induction false} StatsStep(c: Change, rest: string, stats: map<string, Stat>, limit: nat)
    requires WellFormed(c) && |stats| < limit
    ensures Stats(PrintStat(c) + rest, stats, limit) == Stats(rest, stats[DiffFileKey(c.file) := c.stat], limit)
  {
    StatReads(c, rest);
  }

  /** A record that is none, before the limit of keys is reached, makes the whole numstat output malformed. */
  lemma {:induction false} MalformedNumstatRefused(changes: seq<Change>, tail: string, stats: map<string, Stat>, limit: nat)
    requires forall i :: 0 <= i < |changes| ==> WellFormed(changes[i])
    requires DistinctKeys(changes) && NewKeys(changes, stats) && |stats| + |changes| < limit
    requires tail != "" && !StartsWithStatRecord(tail)
    ensures Stats(PrintAllStats(changes) + tail, stats, limit) == None
    decreases changes
  {
    if changes == [] {
      assert PrintAllStats(changes) + tail == tail;
      StatRecordsAccepted(tail);
    } else {
      assert PrintAllStats(changes) + tail == PrintStat(changes[0]) + (PrintAllStats(changes[1..]) + tail);
      StatsStep(changes[0], PrintAllStats(changes[1..]) + tail, stats, limit);
      KeysStep(changes, stats);
      OneMoreKey(stats, DiffFileKey(changes[0].file), changes[0].stat);
      MalformedNumstatRefused(changes[1..], tail, stats[DiffFileKey(changes[0].file) := changes[0].stat], limit);
    }
  }

  lemma OneMoreKey(stats: map<string, Stat>, key: string, stat: Stat)
    requires key !in stats
    ensures |stats[key := stat]| == |stats| + 1
  {
  }

  lemma {:induction false} StatsOfHas(changes: seq<Change>, stats: map<string, Stat>, i: nat)
    requires DistinctKeys(changes) && i < |changes|
    ensures DiffFileKey(changes[i].file) in StatsOf(changes, stats)
    ensures StatsOf(changes, stats)[DiffFileKey(changes[i].file)] == changes[i].stat
    decreases changes
  {
    var more := stats[DiffFileKey(changes[0].file) := changes[0].stat];
    if i > 0 {
      StatsOfHas(changes[1..], more, i - 1);
    } else {
      StatsOfKeeps(changes[1..], more, DiffFileKey(changes[0].file));
    }
  }

  lemma {:induction false} StatsOfLacks(changes: seq<Change>, stats: map<string, Stat>, key: string)
    requires key !in stats && forall i :: 0 <= i < |changes| ==> DiffFileKey(changes[i].file) != key
    ensures key !in StatsOf(changes, stats)
    decreases changes
  {
    if changes != [] {
      StatsOfLacks(changes[1..], stats[DiffFileKey(changes[0].file) := changes[0].stat], key);
    }
  }

  lemma {:induction false} StatsOfKeeps(changes: seq<Change>, stats: map<string, Stat>, key: string)
    requires key in stats && forall i :: 0 <= i < |changes| ==> DiffFileKey(changes[i].file) != key
    ensures key in StatsOf(changes, stats) && StatsOf(changes, stats)[key] == stats[key]
    decreases changes
  {
    if changes != [] {
      StatsOfKeeps(changes[1..], stats[DiffFileKey(changes[0].file) := changes[0].stat], key);
    }
  }

  /**
   * The numstat parser inverts the numstat format and agrees with the raw parser: for changes
   * with distinct keys, asking for as many entries as the raw parser returned gives every one of
   * those files its own counts.
   */
  lemma {:induction false} NumstatAgreesWithRaw(changes: seq<Change>, i: nat)
    requires forall k :: 0 <= k < |changes| ==> WellFormed(changes[k])
    requires DistinctKeys(changes) && i < AtMost(|changes|, MAX_DIFF_ENTRIES)
    ensures var raw := RawFiles(PrintAllRaw(changes), []);
            raw.Some? && i < |raw.value.0| && raw.value.0[i] == changes[i].file &&
            var stats := Stats(PrintAllStats(changes), map[], |raw.value.0|);
            stats.Some? && DiffFileKey(raw.value.0[i]) in stats.value && stats.value[DiffFileKey(raw.value.0[i])] == changes[i].stat
  {
    var n := AtMost(|changes|, MAX_DIFF_ENTRIES);
    RawRoundTrip(changes);
    StatsRead(changes, map[], n);
    assert AtMost(|changes|, n) == n;
    var first := changes[..n];
    StatsOfHas(first, map[], i);
    assert first[i] == changes[i];
  }
}
