/** A whole diff: the files, their counts and their patches, read from three outputs of git. */
module Diffs {
  import opened Results
  import opened DiffTypes
  import opened DiffParsers
  import PatchCollector

  datatype DiffResult = DiffResult(files: seq<DiffFile>, truncated: bool)

  function Counted(files: seq<DiffFile>, stats: map<string, Stat>): seq<DiffFile>
    requires forall i :: 0 <= i < |files| ==> DiffFileKey(files[i]) in stats
  {
    seq(|files|, i requires 0 <= i < |files| => WithStat(files[i], stats[DiffFileKey(files[i])]))
  }

  /** Of a truncated diff no patch is read. */
  function WithoutPatches(files: seq<DiffFile>): seq<DiffFile> {
    seq(|files|, i requires 0 <= i < |files| => files[i].(omitted := if files[i].binary then Binary else TooLarge))
  }

  /** What the three outputs say; None for output that is malformed or does not fit together. */
  function Described(raw: string, numstat: string, stream: string, utf8: string -> bool): Option<DiffResult> {
    match RawFiles(raw, [])
    case None => None
    case Some((files, truncated)) =>
      if files == [] then Some(DiffResult([], false))
      else match Stats(numstat, map[], |files|)
        case None => None
        case Some(stats) =>
          if exists i :: 0 <= i < |files| && DiffFileKey(files[i]) !in stats then None
          else if truncated then Some(DiffResult(WithoutPatches(Counted(files, stats)), true))
          else if |PatchCollector.Sections(stream)| != |files| then None
          else Some(DiffResult(PatchCollector.Collected(Counted(files, stats), PatchCollector.Sections(stream), utf8), false))
  }

  /** The order of Diff: raw output, numstat output, then the patch stream unless the diff is truncated. */
  method Diff(raw: string, numstat: string, chunks: seq<string>, utf8: string -> bool) returns (r: Option<DiffResult>)
    requires PatchCollector.ReadInSlices(chunks)
    ensures r == Described(raw, numstat, PatchCollector.Concat(chunks), utf8)
  {
    var parsed := ParseRawDiff(raw);
    if parsed.None? {
      return None;
    }
    var files, truncated := parsed.value.0, parsed.value.1;
    if |files| == 0 {
      return Some(DiffResult([], false));
    }
    var stats := ParseNumstat(numstat, |files|);
    if stats.None? {
      return None;
    }
    var counted := AttachStats(files, stats.value);
    if counted.None? {
      return None;
    }
    assert counted.value == Counted(files, stats.value);
    if truncated {
      var omitted := OmitPatches(counted.value);
      return Some(DiffResult(omitted, true));
    }
    var patched := PatchCollector.AddDiffPatches(counted.value, chunks, utf8);
    return match patched case None => None case Some(all) => Some(DiffResult(all, false));
  }

  method OmitPatches(files: seq<DiffFile>) returns (r: seq<DiffFile>)
    ensures r == WithoutPatches(files)
    ensures |r| == |files| && forall i :: 0 <= i < |files| ==>
              r[i] == files[i].(omitted := r[i].omitted) && r[i].omitted == if files[i].binary then Binary else TooLarge
  {
    r := files;
    var i := 0;
    while i < |files|
      invariant 0 <= i <= |files| == |r|
      invariant forall j :: 0 <= j < i ==> r[j] == WithoutPatches(files)[j]
      invariant forall j :: i <= j < |files| ==> r[j] == files[j]
    {
      r := r[i := r[i].(omitted := if r[i].binary then Binary else TooLarge)];
      i := i + 1;
    }
  }

  // ---------------------------------------------------------------- theorems

  /** A file of the diff shows its change: place and counts. */
  ghost predicate Shows(file: DiffFile, c: Change) {
    SamePlace(file, c.file) &&
    file.additions == c.stat.additions && file.deletions == c.stat.deletions && file.binary == c.stat.binary
  }

  /** How many changes are shown. */
  function Shown(changes: seq<Change>): nat {
    if |changes| <= 10_000 then |changes| else 10_000
  }

  lemma {:induction false} RawShown(changes: seq<Change>)
    requires forall k :: 0 <= k < |changes| ==> WellFormed(changes[k])
    ensures RawFiles(PrintAllRaw(changes), []) == Some((FilesOf(changes)[..Shown(changes)], |changes| > 10_000))
  {
    RawRoundTrip(changes);
  }

  /** The counts read hold those of every change shown. */
  ghost predicate CountsFit(changes: seq<Change>, stats: map<string, Stat>) {
    forall i :: 0 <= i < Shown(changes) ==>
      DiffFileKey(changes[i].file) in stats && stats[DiffFileKey(changes[i].file)] == changes[i].stat
  }

  lemma {:induction false} StatsShown(changes: seq<Change>)
    requires forall k :: 0 <= k < |changes| ==> WellFormed(changes[k])
    requires DistinctKeys(changes) && changes != []
    ensures var stats := Stats(PrintAllStats(changes), map[], Shown(changes)); stats.Some? && CountsFit(changes, stats.value)
  {
    RawShown(changes);
    forall i | 0 <= i < Shown(changes)
      ensures var stats := Stats(PrintAllStats(changes), map[], Shown(changes));
              stats.Some? && DiffFileKey(changes[i].file) in stats.value && stats.value[DiffFileKey(changes[i].file)] == changes[i].stat
    {
      NumstatAgreesWithRaw(changes, i);
    }
    NumstatAgreesWithRaw(changes, 0);
  }

  lemma {:induction false} CountedShows(changes: seq<Change>, stats: map<string, Stat>)
    requires forall k :: 0 <= k < |changes| ==> WellFormed(changes[k])
    requires CountsFit(changes, stats)
    ensures forall i :: 0 <= i < Shown(changes) ==> DiffFileKey(FilesOf(changes)[..Shown(changes)][i]) in stats
    ensures forall i :: 0 <= i < Shown(changes) ==>
              var file := Counted(FilesOf(changes)[..Shown(changes)], stats)[i];
              Shows(file, changes[i]) && file.patch == None && file.omitted == NotOmitted
  {
    forall i | 0 <= i < Shown(changes) ensures FilesOf(changes)[..Shown(changes)][i] == changes[i].file {
    }
  }

  /** Output that fits together is described by its counted files and their sections. */
  lemma {:induction false} DescribedWhole(raw: string, numstat: string, stream: string, utf8: string -> bool, files: seq<DiffFile>, stats: map<string, Stat>)
    requires RawFiles(raw, []) == Some((files, false)) && files != [] && Stats(numstat, map[], |files|) == Some(stats)
    requires (forall i :: 0 <= i < |files| ==> DiffFileKey(files[i]) in stats) && |PatchCollector.Sections(stream)| == |files|
    ensures Described(raw, numstat, stream, utf8) ==
            Some(DiffResult(PatchCollector.Collected(Counted(files, stats), PatchCollector.Sections(stream), utf8), false))
  {
  }

  /**
   * A whole diff, end to end: printing up to ten thousand well-formed changes with distinct keys in
   * all three formats, with one section each, and reading them gives every change its status,
   * paths, modes, blobs and counts, and its section as patch or the reason why not.
   */
  lemma {:induction false} DiffIsRead(changes: seq<Change>, printed: seq<seq<string>>, utf8: string -> bool)
    requires forall k :: 0 <= k < |changes| ==> WellFormed(changes[k])
    requires DistinctKeys(changes) && |changes| <= 10_000
    requires |printed| == |changes| && forall k :: 0 <= k < |printed| ==> PatchCollector.IsSection(printed[k])
    ensures var r := Described(PrintAllRaw(changes), PrintAllStats(changes), PatchCollector.Concat(PatchCollector.AllLines(printed)), utf8);
            r.Some? && !r.value.truncated && |r.value.files| == |changes| &&
            forall i :: 0 <= i < |changes| ==> PatchedAs(r.value.files, i, changes[i], PatchCollector.Concat(printed[i]), utf8)
  {
    RawShown(changes);
    if changes != [] {
      StatsShown(changes);
      var stats := Stats(PrintAllStats(changes), map[], |changes|).value;
      CountedShows(changes, stats);
      PatchCollector.PrintedSectionsRead(printed);
      var files := FilesOf(changes)[..|changes|];
      DescribedWhole(PrintAllRaw(changes), PrintAllStats(changes), PatchCollector.Concat(PatchCollector.AllLines(printed)), utf8, files, stats);
      PatchesFollow(changes, Counted(files, stats), printed, utf8);
    }
  }

  lemma {:induction false} PatchesFollow(changes: seq<Change>, counted: seq<DiffFile>, printed: seq<seq<string>>, utf8: string -> bool)
    requires |changes| == |counted| == |printed|
    requires forall i :: 0 <= i < |changes| ==> Shows(counted[i], changes[i]) && counted[i].patch == None && counted[i].omitted == NotOmitted
    ensures forall i :: 0 <= i < |changes| ==>
              PatchedAs(PatchCollector.Collected(counted, PatchCollector.Texts(printed), utf8), i, changes[i], PatchCollector.Concat(printed[i]), utf8)
  {
    forall i | 0 <= i < |changes|
      ensures PatchedAs(PatchCollector.Collected(counted, PatchCollector.Texts(printed), utf8), i, changes[i], PatchCollector.Concat(printed[i]), utf8)
    {
      PatchCollector.PatchKeptExactlyWhenItFits(counted, PatchCollector.Texts(printed), utf8, i);
    }
  }

  /** A diff of up to ten thousand changes is refused when the patch stream has more or fewer sections than there are files. */
  lemma {:induction false} SectionsMustFit(changes: seq<Change>, stream: string, utf8: string -> bool)
    requires forall k :: 0 <= k < |changes| ==> WellFormed(changes[k])
    requires DistinctKeys(changes) && 1 <= |changes| <= 10_000
    ensures Described(PrintAllRaw(changes), PrintAllStats(changes), stream, utf8).Some? <==> |PatchCollector.Sections(stream)| == |changes|
  {
    RawShown(changes);
    StatsShown(changes);
    CountedShows(changes, Stats(PrintAllStats(changes), map[], |changes|).value);
  }

  /** It is refused when the counts of some file are missing. */
  lemma {:induction false} CountsMustBeThere(changes: seq<Change>, counted: seq<Change>, k: nat, stream: string, utf8: string -> bool)
    requires forall i :: 0 <= i < |changes| ==> WellFormed(changes[i])
    requires forall i :: 0 <= i < |counted| ==> WellFormed(counted[i])
    requires DistinctKeys(counted) && |counted| <= |changes| <= 10_000
    requires k < |changes| && forall i :: 0 <= i < |counted| ==> DiffFileKey(counted[i].file) != DiffFileKey(changes[k].file)
    ensures Described(PrintAllRaw(changes), PrintAllStats(counted), stream, utf8) == None
  {
    RawShown(changes);
    StatsRead(counted, map[], |changes|);
    assert counted[..|counted|] == counted;
    StatsOfLacks(counted, map[], DiffFileKey(changes[k].file));
    var files := FilesOf(changes)[..|changes|];
    assert files[k] == changes[k].file;
    DescribedNot(PrintAllRaw(changes), PrintAllStats(counted), stream, utf8, files, StatsOf(counted, map[]), k);
  }

  lemma {:induction false} DescribedNot(raw: string, numstat: string, stream: string, utf8: string -> bool, files: seq<DiffFile>, stats: map<string, Stat>, k: nat)
    requires RawFiles(raw, []) == Some((files, false)) && Stats(numstat, map[], |files|) == Some(stats)
    requires k < |files| && DiffFileKey(files[k]) !in stats
    ensures Described(raw, numstat, stream, utf8) == None
  {
  }

  /** A file shows its change and has its section as patch, or the first reason why it has none. */
  ghost predicate PatchedAs(files: seq<DiffFile>, i: nat, c: Change, section: string, utf8: string -> bool) {
    i < |files| && Shows(files[i], c) &&
    var tooLarge := |section| > 1_048_576 || PatchCollector.PatchBytes(files[..i]) + |section| > 10_485_760;
    if c.stat.binary then files[i].patch == None && files[i].omitted == Binary
    else if tooLarge then files[i].patch == None && files[i].omitted == TooLarge
    else if !utf8(section) then files[i].patch == None && files[i].omitted == UnsupportedEncoding
    else files[i].patch == Some(section) && files[i].omitted == NotOmitted
  }

  /** Of more than ten thousand changes the first ten thousand are read, with their counts and no patches. */
  lemma {:induction false} LongDiffIsCut(changes: seq<Change>, stream: string, utf8: string -> bool)
    requires forall k :: 0 <= k < |changes| ==> WellFormed(changes[k])
    requires DistinctKeys(changes) && |changes| > 10_000
    ensures var r := Described(PrintAllRaw(changes), PrintAllStats(changes), stream, utf8);
            r.Some? && r.value.truncated && |r.value.files| == 10_000 &&
            forall i :: 0 <= i < 10_000 ==>
              Shows(r.value.files[i], changes[i]) && r.value.files[i].patch == None &&
              r.value.files[i].omitted == if changes[i].stat.binary then Binary else TooLarge
  {
    RawShown(changes);
    StatsShown(changes);
    CountedShows(changes, Stats(PrintAllStats(changes), map[], 10_000).value);
  }
}
