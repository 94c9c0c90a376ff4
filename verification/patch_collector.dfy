/** Collecting the patches of a diff from git's output, within limits per file and in all. */
module PatchCollector {
  import opened Text
  import opened Results
  import opened DiffTypes

  const MAX_FILE_PATCH_BYTES := 0x10_0000
  const MAX_DIFF_PATCH_BYTES := 0xA0_0000
  const HEADER := "diff --git "

  // ------------------------------------------------------------ what is meant

  /** The lines of a stream, each with its newline; the last may have none. */
  function Lines(s: string): seq<string> {
    LinesOf(Split(s, '\n'))
  }

  function Terminated(parts: seq<string>): seq<string> {
    seq(|parts|, i requires 0 <= i < |parts| => parts[i] + "\n")
  }

  function LinesOf(parts: seq<string>): seq<string>
    requires |parts| >= 1
  {
    Terminated(parts[..|parts| - 1]) + if parts[|parts| - 1] == "" then [] else [parts[|parts| - 1]]
  }

  /** The sections of a list of lines: a header line opens one, other lines continue the last. */
  function SectionsOf(lines: seq<string>): seq<string> {
    if lines == [] then []
    else
      var sections, line := SectionsOf(lines[..|lines| - 1]), lines[|lines| - 1];
      if HEADER <= line then sections + [line]
      else if sections == [] then []
      else sections[..|sections| - 1] + [sections[|sections| - 1] + line]
  }

  function Sections(stream: string): seq<string> {
    SectionsOf(Lines(stream))
  }

  /** Whether a section is too much for the file or for what is left of the response. */
  predicate TooMuch(total: nat, section: string) {
    |section| > MAX_FILE_PATCH_BYTES || total + |section| > MAX_DIFF_PATCH_BYTES
  }

  /** A file once its section is complete, given the bytes kept before it. */
  function WithSection(file: DiffFile, total: nat, section: string, utf8: string -> bool): DiffFile {
    if file.binary then file.(omitted := Binary)
    else if TooMuch(total, section) then file.(omitted := TooLarge)
    else if !utf8(section) then file.(omitted := UnsupportedEncoding)
    else file.(patch := Some(section))
  }

  function KeptBytes(file: DiffFile, total: nat, section: string, utf8: string -> bool): nat {
    if !file.binary && !TooMuch(total, section) && utf8(section) then |section| else 0
  }

  /** Bytes kept once the first sections are complete. */
  function Total(files: seq<DiffFile>, sections: seq<string>, utf8: string -> bool): (total: nat)
    ensures total <= MAX_DIFF_PATCH_BYTES
  {
    if sections == [] then 0
    else
      var k := |sections| - 1;
      var before := Total(files, sections[..k], utf8);
      if k < |files| then before + KeptBytes(files[k], before, sections[k], utf8) else before
  }

  /** The files once the first sections are complete. */
  function Collected(files: seq<DiffFile>, sections: seq<string>, utf8: string -> bool): (r: seq<DiffFile>)
    ensures |r| == |files|
  {
    if sections == [] then files
    else
      var k := |sections| - 1;
      var before := Collected(files, sections[..k], utf8);
      if k < |files| then before[k := WithSection(files[k], Total(files, sections[..k], utf8), sections[k], utf8)] else before
  }

  lemma {:induction false} CollectedAt(files: seq<DiffFile>, sections: seq<string>, utf8: string -> bool, k: nat)
    requires k < |files|
    ensures Collected(files, sections, utf8)[k] ==
            if k < |sections| then WithSection(files[k], Total(files, sections[..k], utf8), sections[k], utf8) else files[k]
  {
    if sections != [] {
      var last := |sections| - 1;
      CollectedAt(files, sections[..last], utf8, k);
      if k < last {
        assert sections[..last][..k] == sections[..k];
      }
    }
  }

  // ------------------------------------------------------------ the collector

  class DiffPatchCollector {
    var files: seq<DiffFile>
    var current: int
    var sections: nat
    var totalBytes: nat
    var currentPatch: string
    var tooLarge: bool
    var failed: bool
    const utf8: string -> bool
    ghost const given: seq<DiffFile>
    ghost var seen: seq<string>

    /** The state is the fold over the finished sections plus the section under way. */
    ghost predicate Valid()
      reads this
    {
      sections == |seen| && current == |seen| - 1 &&
      (failed <==> |seen| > |given|) &&
      if seen == [] then files == given && totalBytes == 0
      else
        files == Collected(given, seen[..current], utf8) &&
        totalBytes == Total(given, seen[..current], utf8) &&
        (current < |given| && !given[current].binary ==>
          (tooLarge <==> TooMuch(totalBytes, seen[current])) && (!tooLarge ==> currentPatch == seen[current]))
    }

    constructor (files: seq<DiffFile>, utf8: string -> bool)
      ensures Valid() && seen == [] && given == files && this.utf8 == utf8
    {
      this.files, this.utf8, this.given := files, utf8, files;
      current, sections, totalBytes, currentPatch, tooLarge, failed := -1, 0, 0, "", false, false;
      seen := [];
    }

    /** The state with the section under way counted as complete. */
    ghost predicate Finalized()
      reads this
    {
      sections == |seen| && current == |seen| - 1 &&
      (failed <==> |seen| > |given|) &&
      files == Collected(given, seen, utf8) && totalBytes == Total(given, seen, utf8)
    }

    method FinalizeSection()
      requires Valid()
      modifies this`files, this`totalBytes
      ensures Finalized()
    {
      if current < 0 || current >= |files| {
        return;
      }
      assert seen[..current + 1] == seen;
      CollectedAt(given, seen[..current], utf8, current);
      var file := files[current];
      if file.binary {
        files := files[current := file.(omitted := Binary)];
      } else if tooLarge {
        files := files[current := file.(omitted := TooLarge)];
      } else if !utf8(currentPatch) {
        files := files[current := file.(omitted := UnsupportedEncoding)];
      } else {
        files := files[current := file.(patch := Some(currentPatch))];
        totalBytes := totalBytes + |currentPatch|;
      }
    }

    method StartSection()
      requires Valid()
      modifies this
      ensures Valid() && seen == old(seen) + [""]
    {
      FinalizeSection();
      current := sections;
      sections := sections + 1;
      currentPatch := "";
      tooLarge := false;
      if current >= |files| && !failed {
        failed := true;
      }
      seen := seen + [""];
      assert seen[..current] == old(seen);
    }

    method Add(chunk: string)
      requires Valid()
      modifies this`currentPatch, this`tooLarge, this`seen
      ensures Valid()
      ensures seen == if old(seen) == [] then [] else Extended(old(seen), chunk)
    {
      ghost var was := seen;
      if seen != [] {
        seen := Extended(seen, chunk);
        assert seen[..current] == was[..current];
      }
      if current < 0 || current >= |files| || files[current].binary || tooLarge {
        if 0 <= current < |files| {
          CollectedAt(given, seen[..current], utf8, current);
        }
        return;
      }
      CollectedAt(given, seen[..current], utf8, current);
      if |currentPatch| + |chunk| > MAX_FILE_PATCH_BYTES || totalBytes + |currentPatch| + |chunk| > MAX_DIFF_PATCH_BYTES {
        currentPatch := "";
        tooLarge := true;
        return;
      }
      currentPatch := currentPatch + chunk;
    }

    method Finish() returns (ok: bool)
      requires Valid()
      modifies this`files, this`totalBytes
      ensures ok <==> |seen| == |given|
      ensures files == Collected(given, seen, utf8) && totalBytes == Total(given, seen, utf8)
    {
      FinalizeSection();
      if failed {
        return false;
      }
      return sections == |files|;
    }
  }

  /** The last section with more bytes. */
  ghost function Extended(sections: seq<string>, chunk: string): seq<string>
    requires sections != []
  {
    sections[..|sections| - 1] + [sections[|sections| - 1] + chunk]
  }

  // --------------------------------------------------------------- the stream

  ghost function Concat(chunks: seq<string>): string {
    if chunks == [] then "" else Concat(chunks[..|chunks| - 1]) + chunks[|chunks| - 1]
  }

  predicate EndsLine(s: string) {
    s == "" || s[|s| - 1] == '\n'
  }

  /** ReadSlice: a newline only ends a chunk, and a line broken up starts with a full buffer. */
  ghost predicate ReadInSlices(chunks: seq<string>) {
    forall i :: 0 <= i < |chunks| ==>
      IsSlice(chunks[i]) &&
      (EndsLine(Concat(chunks[..i])) && i < |chunks| - 1 && chunks[i] != "" && !EndsLine(chunks[i]) ==> |chunks[i]| >= |HEADER|)
  }

  /** A chunk is some text without newlines, then possibly one newline. */
  ghost predicate IsSlice(chunk: string) {
    forall k :: 0 <= k < |chunk| - 1 ==> chunk[k] != '\n'
  }

  lemma {:induction false} SliceParts(chunk: string)
    requires IsSlice(chunk) && chunk != ""
    ensures Split(chunk, '\n') == if EndsLine(chunk) then [chunk[..|chunk| - 1], ""] else [chunk]
  {
    if EndsLine(chunk) {
      var body := chunk[..|chunk| - 1];
      assert chunk == body + ['\n'];
      SplitEnds(body, '\n');
      SplitWhole(body, '\n');
    } else {
      SplitWhole(chunk, '\n');
    }
  }

  lemma SliceIsLine(chunk: string)
    requires IsSlice(chunk) && chunk != ""
    ensures Lines(chunk) == [chunk]
  {
    SliceParts(chunk);
    if EndsLine(chunk) {
      var body := chunk[..|chunk| - 1];
      assert [body, ""][..1] == [body];
      assert Terminated([body]) == [body + "\n"];
      assert chunk == body + "\n";
    } else {
      assert [chunk][..0] == [];
    }
  }

  lemma LinesConcat(q: string, tail: string)
    ensures Lines(q + "\n" + tail) == Terminated(Split(q, '\n')) + Lines(tail)
  {
    SplitConcat(q, tail, '\n');
    PartsConcat(Split(q, '\n'), Split(tail, '\n'));
  }

  /** At a line start a chunk is one more line. */
  lemma LinesAtStart(s: string, chunk: string)
    requires EndsLine(s) && chunk != "" && IsSlice(chunk)
    ensures Lines(s + chunk) == Lines(s) + [chunk]
  {
    SliceIsLine(chunk);
    if s == "" {
      assert s + chunk == chunk;
    } else {
      var q := s[..|s| - 1];
      assert s == q + "\n" + "" && s + chunk == q + "\n" + chunk;
      LinesConcat(q, chunk);
      LinesConcat(q, "");
    }
  }

  lemma NoLines()
    ensures Lines("") == []
  {
    assert Split("", '\n') == [""];
    assert [""][..0] == [];
  }

  lemma PartsConcat(parts: seq<string>, tail: seq<string>)
    requires |tail| >= 1
    ensures LinesOf(parts + tail) == Terminated(parts) + LinesOf(tail)
  {
  }

  /** Inside a line a chunk lengthens the last line. */
  lemma LinesInside(s: string, chunk: string)
    requires !EndsLine(s) && chunk != "" && IsSlice(chunk)
    ensures Lines(s) != [] && Lines(s + chunk) == Extended(Lines(s), chunk)
  {
    var parts := Split(s, '\n');
    LastPart(s);
    var init, last := parts[..|parts| - 1], parts[|parts| - 1];
    assert parts == init + [last];
    if EndsLine(chunk) {
      SplitInsideEnd(s, chunk);
      PartsInsideEnd(init, last, chunk);
    } else {
      SplitInside(s, chunk);
      PartsInside(init, last, chunk);
    }
  }

  lemma SplitInside(s: string, chunk: string)
    requires IsSlice(chunk) && !EndsLine(chunk)
    ensures var parts := Split(s, '\n');
            Split(s + chunk, '\n') == parts[..|parts| - 1] + [parts[|parts| - 1] + chunk]
  {
    SplitAppend(s, chunk, '\n');
  }

  lemma SplitInsideEnd(s: string, chunk: string)
    requires IsSlice(chunk) && chunk != "" && EndsLine(chunk)
    ensures var parts := Split(s, '\n');
            Split(s + chunk, '\n') == parts[..|parts| - 1] + [parts[|parts| - 1] + chunk[..|chunk| - 1]] + [""]
  {
    var body := chunk[..|chunk| - 1];
    assert s + chunk == (s + body) + ['\n'];
    SplitAppend(s, body, '\n');
    SplitEnds(s + body, '\n');
  }

  lemma PartsInside(init: seq<string>, last: string, chunk: string)
    requires last != ""
    ensures LinesOf(init + [last]) != [] && LinesOf(init + [last + chunk]) == Extended(LinesOf(init + [last]), chunk)
  {
  }

  lemma PartsInsideEnd(init: seq<string>, last: string, chunk: string)
    requires last != "" && chunk != "" && EndsLine(chunk)
    ensures LinesOf(init + [last]) != []
    ensures LinesOf(init + [last + chunk[..|chunk| - 1]] + [""]) == Extended(LinesOf(init + [last]), chunk)
  {
    LongerLine(init, last);
    ExtendedLine(init, last + chunk[..|chunk| - 1]);
    assert last + chunk[..|chunk| - 1] + "\n" == last + chunk;
    ExtendedTwice(Terminated(init), last, chunk);
  }

  lemma LongerLine(init: seq<string>, line: string)
    requires line != ""
    ensures LinesOf(init + [line]) == Terminated(init) + [line]
  {
  }

  lemma ExtendedLine(init: seq<string>, line: string)
    ensures LinesOf(init + [line] + [""]) == Terminated(init) + [line + "\n"]
  {
  }

  /** The last part of a split is empty exactly when the text ends with the separator or is empty. */
  lemma {:induction false} LastPart(s: string)
    ensures var parts := Split(s, '\n'); parts[|parts| - 1] == "" <==> EndsLine(s)
  {
    if s != "" {
      LastPart(s[1..]);
      if |s| > 1 {
        assert s[1..][|s[1..]| - 1] == s[|s| - 1];
      }
    }
  }

  lemma {:induction false} SectionsStep(lines: seq<string>, line: string)
    ensures SectionsOf(lines + [line]) ==
            if HEADER <= line then SectionsOf(lines) + [line]
            else if SectionsOf(lines) == [] then []
            else Extended(SectionsOf(lines), line)
  {
  }

  /** Lengthening the last line lengthens the last section, once its beginning is known. */
  lemma {:induction false} SectionsInside(lines: seq<string>, chunk: string)
    requires lines != [] && (HEADER <= lines[|lines| - 1] <==> HEADER <= lines[|lines| - 1] + chunk)
    ensures SectionsOf(Extended(lines, chunk)) ==
            if SectionsOf(lines) == [] then [] else Extended(SectionsOf(lines), chunk)
  {
    var init, last := lines[..|lines| - 1], lines[|lines| - 1];
    SectionsLast(init, last, chunk);
    assert lines == init + [last];
  }

  lemma {:induction false} SectionsLast(init: seq<string>, last: string, chunk: string)
    requires HEADER <= last <==> HEADER <= last + chunk
    ensures SectionsOf(init + [last + chunk]) ==
            if SectionsOf(init + [last]) == [] then [] else Extended(SectionsOf(init + [last]), chunk)
  {
    SectionsStep(init, last);
    SectionsStep(init, last + chunk);
    ExtendedTwice(SectionsOf(init), last, chunk);
  }

  lemma ExtendedTwice(sections: seq<string>, last: string, chunk: string)
    ensures Extended(sections + [last], chunk) == sections + [last + chunk]
    ensures sections != [] ==> Extended(Extended(sections, last), chunk) == Extended(sections, last + chunk)
  {
    if sections != [] {
      var k := |sections| - 1;
      assert Extended(sections, last)[..k] == sections[..k];
      assert sections[k] + last + chunk == sections[k] + (last + chunk);
    }
  }

  /** What one more chunk does to the sections and to whether the next chunk starts a line. */
  ghost function FedOne(sections: seq<string>, atLineStart: bool, chunk: string): (seq<string>, bool) {
    if chunk == "" then (sections, atLineStart)
    else (if atLineStart && HEADER <= chunk then sections + [chunk]
          else if sections == [] then []
          else Extended(sections, chunk),
          chunk[|chunk| - 1] == '\n')
  }

  /** The sections after feeding chunks, and whether the next one starts a line. */
  ghost function Fed(chunks: seq<string>): (seq<string>, bool) {
    if chunks == [] then ([], true)
    else
      var (sections, atLineStart) := Fed(chunks[..|chunks| - 1]);
      FedOne(sections, atLineStart, chunks[|chunks| - 1])
  }

  /** One chunk read: a header at a line start opens a section, and the bytes are added. */
  method Feed(collector: DiffPatchCollector, chunk: string, atLineStart: bool) returns (endsLine: bool)
    requires collector.Valid()
    modifies collector
    ensures collector.Valid()
    ensures (collector.seen, endsLine) == FedOne(old(collector.seen), atLineStart, chunk)
  {
    if |chunk| == 0 {
      return atLineStart;
    }
    if atLineStart && HEADER <= chunk {
      collector.StartSection();
      assert "" + chunk == chunk;
    }
    collector.Add(chunk);
    return chunk[|chunk| - 1] == '\n';
  }

  /** addDiffPatches: feeds the reader's chunks to a collector, watching for section headers. */
  method AddDiffPatches(files: seq<DiffFile>, chunks: seq<string>, utf8: string -> bool) returns (r: Option<seq<DiffFile>>)
    requires ReadInSlices(chunks)
    ensures r.Some? <==> |Sections(Concat(chunks))| == |files|
    ensures r.Some? ==> r.value == Collected(files, Sections(Concat(chunks)), utf8)
  {
    var collector := new DiffPatchCollector(files, utf8);
    FeedAll(collector, chunks);
    FedIsSections(chunks);
    var ok := collector.Finish();
    return if ok then Some(collector.files) else None;
  }

  /** The reading loop. */
  method FeedAll(collector: DiffPatchCollector, chunks: seq<string>)
    requires collector.Valid() && collector.seen == []
    modifies collector
    ensures collector.Valid() && collector.seen == Fed(chunks).0
  {
    var atLineStart := true;
    var i := 0;
    while i < |chunks|
      invariant 0 <= i <= |chunks|
      invariant collector.Valid()
      invariant (collector.seen, atLineStart) == Fed(chunks[..i])
    {
      FedNext(chunks, i, collector.seen, atLineStart);
      atLineStart := Feed(collector, chunks[i], atLineStart);
      i := i + 1;
    }
    assert chunks[..i] == chunks;
  }

  lemma FedNext(chunks: seq<string>, i: nat, sections: seq<string>, atLineStart: bool)
    requires i < |chunks| && (sections, atLineStart) == Fed(chunks[..i])
    ensures Fed(chunks[..i + 1]) == FedOne(sections, atLineStart, chunks[i])
  {
    assert chunks[..i + 1][..i] == chunks[..i];
  }

  /** Feeding depends only on the bytes of the stream, not on how it was cut into chunks. */
  lemma {:induction false} FedIsSections(chunks: seq<string>)
    requires ReadInSlices(chunks)
    ensures Fed(chunks) == (Sections(Concat(chunks)), EndsLine(Concat(chunks)))
  {
    if chunks == [] {
      NoLines();
    } else {
      var init, chunk := chunks[..|chunks| - 1], chunks[|chunks| - 1];
      ReadInSlicesInit(chunks);
      FedIsSections(init);
      if chunk == "" {
        assert Concat(init) + chunk == Concat(init);
      } else {
        UnfinishedLineKnown(init);
        FeedStep(Concat(init), chunk);
      }
    }
  }

  lemma ReadInSlicesInit(chunks: seq<string>)
    requires ReadInSlices(chunks) && chunks != []
    ensures StartsKnown(chunks[..|chunks| - 1]) && ReadInSlices(chunks[..|chunks| - 1])
    ensures IsSlice(chunks[|chunks| - 1])
  {
    var init := chunks[..|chunks| - 1];
    forall i | 0 <= i < |init|
      ensures IsSlice(init[i]) && (EndsLine(Concat(init[..i])) && init[i] != "" && !EndsLine(init[i]) ==> |init[i]| >= |HEADER|)
    {
      assert init[..i] == chunks[..i];
    }
  }

  /** Every chunk that starts a line without ending it is long enough to show a header. */
  ghost predicate StartsKnown(chunks: seq<string>) {
    forall i :: 0 <= i < |chunks| ==>
      IsSlice(chunks[i]) && (EndsLine(Concat(chunks[..i])) && chunks[i] != "" && !EndsLine(chunks[i]) ==> |chunks[i]| >= |HEADER|)
  }

  lemma {:induction false} UnfinishedLineKnown(chunks: seq<string>)
    requires StartsKnown(chunks)
    ensures EndsLine(Concat(chunks)) || LastLineKnown(Concat(chunks))
  {
    if chunks != [] {
      var init, chunk := chunks[..|chunks| - 1], chunks[|chunks| - 1];
      forall i | 0 <= i < |init|
        ensures IsSlice(init[i]) && (EndsLine(Concat(init[..i])) && init[i] != "" && !EndsLine(init[i]) ==> |init[i]| >= |HEADER|)
      {
        assert init[..i] == chunks[..i];
      }
      UnfinishedLineKnown(init);
      if chunk == "" {
        assert Concat(init) + chunk == Concat(init);
      } else {
        FeedStep(Concat(init), chunk);
      }
    }
  }

  /** Enough of an unfinished last line has been read to tell whether it is a header. */
  ghost predicate LastLineKnown(s: string) {
    Lines(s) != [] && |Lines(s)[|Lines(s)| - 1]| >= |HEADER|
  }

  /** What one chunk does to the sections of the stream read so far. */
  lemma FeedStep(s: string, chunk: string)
    requires chunk != "" && IsSlice(chunk)
    requires !EndsLine(s) ==> LastLineKnown(s)
    ensures Sections(s + chunk) ==
            if EndsLine(s) && HEADER <= chunk then Sections(s) + [chunk]
            else if Sections(s) == [] then []
            else Extended(Sections(s), chunk)
    ensures EndsLine(s + chunk) <==> chunk[|chunk| - 1] == '\n'
    ensures (EndsLine(s) ==> |chunk| >= |HEADER|) ==> LastLineKnown(s + chunk)
  {
    if EndsLine(s) {
      LinesAtStart(s, chunk);
      SectionsStep(Lines(s), chunk);
    } else {
      LinesInside(s, chunk);
      SectionsInside(Lines(s), chunk);
    }
  }

  // ---------------------------------------------------------------- theorems

  function PatchBytes(files: seq<DiffFile>): nat {
    if files == [] then 0
    else
      PatchBytes(files[..|files| - 1]) +
      (if files[|files| - 1].patch.Some? then |files[|files| - 1].patch.value| else 0)
  }

  /** The byte count is the sum of the patches kept. */
  lemma {:induction false} TotalIsPatchBytes(files: seq<DiffFile>, sections: seq<string>, utf8: string -> bool)
    requires |sections| <= |files| && forall k :: 0 <= k < |files| ==> files[k].patch == None
    ensures Total(files, sections, utf8) == PatchBytes(Collected(files, sections, utf8)[..|sections|])
  {
    if sections != [] {
      var k := |sections| - 1;
      TotalIsPatchBytes(files, sections[..k], utf8);
      CollectedPrefix(files, sections, utf8, k);
      CollectedAt(files, sections, utf8, k);
      var now := Collected(files, sections, utf8)[..k + 1];
      assert now[..k] == Collected(files, sections, utf8)[..k];
    }
  }

  lemma CollectedPrefix(files: seq<DiffFile>, sections: seq<string>, utf8: string -> bool, k: nat)
    requires k <= |sections| <= |files|
    ensures Collected(files, sections, utf8)[..k] == Collected(files, sections[..k], utf8)[..k]
  {
    forall i | 0 <= i < k ensures Collected(files, sections, utf8)[i] == Collected(files, sections[..k], utf8)[i] {
      CollectedAt(files, sections, utf8, i);
      CollectedAt(files, sections[..k], utf8, i);
      assert sections[..k][..i] == sections[..i];
    }
  }

  /** What became of a file: its section is its patch, or the reason why it is not. */
  ghost predicate Outcome(file: DiffFile, given: DiffFile, section: string, before: nat, utf8: string -> bool) {
    var tooLarge := |section| > 1_048_576 || before + |section| > 10_485_760;
    var fits := !given.binary && !tooLarge && utf8(section);
    file == given.(patch := file.patch, omitted := file.omitted) &&
    file.patch == (if fits then Some(section) else None) &&
    file.omitted == if given.binary then Binary else if tooLarge then TooLarge
                    else if !utf8(section) then UnsupportedEncoding else given.omitted
  }

  /**
   * A file gets its complete patch if and only if it is not binary, its section is at most
   * 1 MiB, fits in what the patches kept before it left of 10 MiB, and is valid UTF-8; otherwise it
   * gets the first reason against it and no patch. Nothing else of the file changes, and the kept
   * patches never pass 10 MiB.
   */
  lemma {:induction false} PatchKeptExactlyWhenItFits(files: seq<DiffFile>, sections: seq<string>, utf8: string -> bool, k: nat)
    requires k < |sections| <= |files| && forall i :: 0 <= i < |files| ==> files[i].patch == None
    ensures var r := Collected(files, sections, utf8);
            |r| == |files| && Outcome(r[k], files[k], sections[k], PatchBytes(r[..k]), utf8) &&
            PatchBytes(r[..|sections|]) <= 10_485_760
  {
    CollectedAt(files, sections, utf8, k);
    TotalIsPatchBytes(files, sections[..k], utf8);
    CollectedPrefix(files, sections, utf8, k);
    TotalIsPatchBytes(files, sections, utf8);
  }

  // ------------------------------------------------------- streams git prints

  /** One line with its newline. */
  predicate IsWholeLine(line: string) {
    line != "" && line[|line| - 1] == '\n' && forall k :: 0 <= k < |line| - 1 ==> line[k] != '\n'
  }

  /** A section as printed: a header line, then lines that are none. */
  ghost predicate IsSection(lines: seq<string>) {
    lines != [] && "diff --git " <= lines[0] &&
    forall i :: 0 <= i < |lines| ==> IsWholeLine(lines[i]) && (i > 0 ==> !("diff --git " <= lines[i]))
  }

  lemma {:induction false} OneMoreLine(s: string, line: string)
    requires EndsLine(s) && IsWholeLine(line)
    ensures Lines(s + line) == Lines(s) + [line] && EndsLine(s + line)
  {
    LinesAtStart(s, line);
  }

  /** Whole lines are the lines of the stream they make. */
  lemma {:induction false} WholeLines(lines: seq<string>)
    requires forall i :: 0 <= i < |lines| ==> IsWholeLine(lines[i])
    ensures Lines(Concat(lines)) == lines && EndsLine(Concat(lines))
  {
    if lines == [] {
      NoLines();
    } else {
      var init, last := lines[..|lines| - 1], lines[|lines| - 1];
      WholeLines(init);
      assert IsWholeLine(last);
      OneMoreLine(Concat(init), last);
      assert lines == init + [last];
    }
  }

  /** One more section, line by line. */
  lemma {:induction false} OneMoreSection(before: seq<string>, lines: seq<string>)
    requires IsSection(lines)
    ensures SectionsOf(before + lines) == SectionsOf(before) + [Concat(lines)]
  {
    var init, last := lines[..|lines| - 1], lines[|lines| - 1];
    assert before + lines == before + init + [last];
    SectionsStep(before + init, last);
    if init == [] {
      assert before + init == before;
      assert Concat(init) + last == last;
    } else {
      OneMoreSection(before, init);
      ExtendedTwice(SectionsOf(before), Concat(init), last);
    }
  }

  /** The lines of sections printed one after the other. */
  ghost function AllLines(printed: seq<seq<string>>): seq<string> {
    if printed == [] then [] else AllLines(printed[..|printed| - 1]) + printed[|printed| - 1]
  }

  ghost function Texts(printed: seq<seq<string>>): seq<string> {
    seq(|printed|, i requires 0 <= i < |printed| => Concat(printed[i]))
  }

  lemma {:induction false} TextsStep(printed: seq<seq<string>>)
    requires printed != []
    ensures Texts(printed) == Texts(printed[..|printed| - 1]) + [Concat(printed[|printed| - 1])]
  {
  }

  /** Sections are read back: the stream of any printed sections has exactly those. */
  lemma {:induction false} PrintedSectionsRead(printed: seq<seq<string>>)
    requires forall i :: 0 <= i < |printed| ==> IsSection(printed[i])
    ensures Sections(Concat(AllLines(printed))) == Texts(printed)
  {
    LeadingLinesDropped([], printed);
    assert [] + AllLines(printed) == AllLines(printed);
  }

  /** Lines before the first header belong to no file. */
  lemma {:induction false} LeadingLinesDropped(leading: seq<string>, printed: seq<seq<string>>)
    requires forall i :: 0 <= i < |leading| ==> IsWholeLine(leading[i]) && !("diff --git " <= leading[i])
    requires forall i :: 0 <= i < |printed| ==> IsSection(printed[i])
    ensures Sections(Concat(leading + AllLines(printed))) == Texts(printed)
  {
    LinesOfSections(printed);
    WholeLines(leading + AllLines(printed));
    SectionsAfterLeading(leading, printed);
  }

  lemma {:induction false} NoHeaderNoSection(lines: seq<string>)
    requires forall i :: 0 <= i < |lines| ==> !(HEADER <= lines[i])
    ensures SectionsOf(lines) == []
  {
    if lines != [] {
      NoHeaderNoSection(lines[..|lines| - 1]);
    }
  }

  lemma {:induction false} SectionsAfterLeading(leading: seq<string>, printed: seq<seq<string>>)
    requires forall i :: 0 <= i < |leading| ==> !(HEADER <= leading[i])
    requires forall i :: 0 <= i < |printed| ==> IsSection(printed[i])
    ensures SectionsOf(leading + AllLines(printed)) == Texts(printed)
  {
    if printed == [] {
      NoHeaderNoSection(leading);
      assert leading + AllLines(printed) == leading;
    } else {
      var init, last := printed[..|printed| - 1], printed[|printed| - 1];
      SectionsAfterLeading(leading, init);
      assert IsSection(last);
      assert leading + (AllLines(init) + last) == leading + AllLines(init) + last;
      OneMoreSection(leading + AllLines(init), last);
      TextsStep(printed);
    }
  }

  lemma {:induction false} LinesOfSections(printed: seq<seq<string>>)
    requires forall i :: 0 <= i < |printed| ==> IsSection(printed[i])
    ensures forall i :: 0 <= i < |AllLines(printed)| ==> IsWholeLine(AllLines(printed)[i])
  {
    if printed != [] {
      LinesOfSections(printed[..|printed| - 1]);
    }
  }

  // ------------------------------------------------------------- type changes

  /** What git prints for a file: a type change is a deletion and a creation, two sections; else one. */
  ghost predicate PrintsFile(file: DiffFile, printed: seq<seq<string>>) {
    |printed| == (if file.status.TypeChanged? then 2 else 1) && forall i :: 0 <= i < |printed| ==> IsSection(printed[i])
  }

  ghost function AllPrinted(printed: seq<seq<seq<string>>>): seq<seq<string>> {
    if printed == [] then [] else AllPrinted(printed[..|printed| - 1]) + printed[|printed| - 1]
  }

  lemma {:induction false} PrintedCount(files: seq<DiffFile>, printed: seq<seq<seq<string>>>)
    requires |printed| == |files| && forall i :: 0 <= i < |files| ==> PrintsFile(files[i], printed[i])
    ensures |files| <= |AllPrinted(printed)|
    ensures |AllPrinted(printed)| == |files| <==> forall i :: 0 <= i < |files| ==> !files[i].status.TypeChanged?
    ensures forall i :: 0 <= i < |AllPrinted(printed)| ==> IsSection(AllPrinted(printed)[i])
  {
    if files != [] {
      var k := |files| - 1;
      PrintedCount(files[..k], printed[..k]);
      assert forall i :: 0 <= i < k ==> files[..k][i] == files[i];
    }
  }

  /**
   * Which diffs can get patches: on the stream git prints for a list of files, whatever its sections
   * hold, the rule of one section per file is met if and only if no file changed its type. Every
   * other diff is refused.
   */
  lemma TypeChangesAreRefused(files: seq<DiffFile>, printed: seq<seq<seq<string>>>)
    requires |printed| == |files| && forall i :: 0 <= i < |files| ==> PrintsFile(files[i], printed[i])
    ensures |Sections(Concat(AllLines(AllPrinted(printed))))| == |files| <==> forall i :: 0 <= i < |files| ==> !files[i].status.TypeChanged?
  {
    PrintedCount(files, printed);
    PrintedSectionsRead(AllPrinted(printed));
  }

  /** The header line of a path that stays in place. */
  function HeaderLine(path: string): string {
    "diff --git a/" + path + " b/" + path + "\n"
  }

  /** A file that becomes a symbolic link, as printed. */
  function TypeChangePrinted(path: string): seq<seq<string>> {
    [[HeaderLine(path), "deleted file mode 100644\n"], [HeaderLine(path), "new file mode 120000\n"]]
  }

  lemma HeaderLineIsWhole(path: string)
    requires Lacks(path, '\n')
    ensures IsWholeLine(HeaderLine(path)) && "diff --git " <= HeaderLine(path)
  {
    var body := "diff --git a/" + path + " b/" + path;
    assert Lacks(body, '\n');
    assert HeaderLine(path)[..|body|] == body;
    forall k | 0 <= k < |body| ensures HeaderLine(path)[k] != '\n' {
      assert HeaderLine(path)[k] == body[k] && body[k] in body;
    }
    assert HeaderLine(path)[..11] == "diff --git ";
  }

  /** One file that changed its type: its stream has two sections for it, so the diff is refused. */
  lemma OneTypeChange(file: DiffFile, path: string)
    requires file.status.TypeChanged? && Lacks(path, '\n')
    ensures PrintsFile(file, TypeChangePrinted(path))
    ensures Sections(Concat(AllLines(TypeChangePrinted(path)))) ==
            ["diff --git a/" + path + " b/" + path + "\n" + "deleted file mode 100644\n",
             "diff --git a/" + path + " b/" + path + "\n" + "new file mode 120000\n"]
    ensures |Sections(Concat(AllLines(TypeChangePrinted(path))))| != |[file]|
  {
    HeaderLineIsWhole(path);
    ModeLines();
    PairIsSection(HeaderLine(path), "deleted file mode 100644\n");
    PairIsSection(HeaderLine(path), "new file mode 120000\n");
    PrintedSectionsRead(TypeChangePrinted(path));
  }

  lemma ModeLines()
    ensures IsWholeLine("deleted file mode 100644\n") && !("diff --git " <= "deleted file mode 100644\n")
    ensures IsWholeLine("new file mode 120000\n") && !("diff --git " <= "new file mode 120000\n")
  {
    assert "diff --git "[1] == 'i' && "deleted file mode 100644\n"[1] == 'e' && "diff --git "[0] == 'd' && "new file mode 120000\n"[0] == 'n';
  }

  lemma PairIsSection(header: string, line: string)
    requires IsWholeLine(header) && "diff --git " <= header && IsWholeLine(line) && !("diff --git " <= line)
    ensures IsSection([header, line]) && Concat([header, line]) == header + line
  {
    assert [header, line][..1] == [header] && [header][..0] == [];
    assert Concat([]) + header == header;
    assert Concat([header]) == header;
  }
}
