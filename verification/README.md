# Verified model of the Git hosting core

This project models the parts of the server that decide what ends up in a repository, and proves
properties of them over every input, every run and every interleaving:

- **Commit staging** (`paths`, `commit_ops`, `git_index`, `staging`, `replay`, `staging_meaning`,
  `staging_theorems`, `blocked_paths`, and the worked requests in `staging_steps`, `shadowing` and
  `stale_puts`): a request of puts, deletes and moves is applied to a private
  index, a map of pending puts follows every explicit put through later moves, and the surviving
  puts are cleaned and replayed. The engine is a class with mutable fields; it is compared with a
  sequential meaning in which every entry remembers where it came from.
- **Refs** (`commit_graph`, `ref_machine`, `ref_safety`, `ref_steps`, `history_invariant`,
  `size_limit`, `policy_history`, `repository`, `push_hook`, `push_events`): API commits, branch creation and
  deletion, and pushes with their pre-receive hook change one ref map over a commit graph.
  `repository` holds the operations as methods; `ref_machine` splits them into the steps that can
  interleave.
- **LFS** (`lfs_pointer`, `lfs_keys`, `lfs_registry`, `lfs_protocol`, `lfs_steps`, `clean_smudge`,
  `lfs_runs`): the
  pointer codec, the upload protocol in which rows and stored objects change in separate steps, the
  clean filter with the way back, and the calls as runs of the protocol.
- **Diffs** (`diff_types`, `diff_parsers`, `patch_collector`, `diffs`): the two NUL-record parsers,
  the collector that keeps patches within a budget, and the diff made of all three.
- **Policies** (`path_policy`): which paths a repository refuses.

`text`, `results`, `git_ids` and `string_order` hold what the others share.

## How Git enters

Git is a specification, not code. An index or tree is a map from paths to mode and blob; trees read
from commits have no file that is also a directory. Listing a path gives it and everything below it.
`update-index --index-info` deletes exact paths; an added path drops the files above it and the
entries below it. The object store is append-only and content-addressed: a commit's id is its
position, equal content has one id, parents are older. `update-ref` with an old value is refused
unless the ref still has it, or when a created name collides with a directory of names.
`diff-tree -c` lists what is in a commit and differs from every parent. `check-attr`,
`check-ref-format`, the clock, hashes, the UTF-8 test, the clean filter seen by staging and the policy check are
function parameters. The reader's slices obey the contract of `ReadSlice`: a newline only ends a
slice, and a slice that leaves its line unfinished before the end of the stream is long enough to
show the section header.

Text is a sequence of characters standing for bytes. Sizes are unbounded integers; where the code
parses 64-bit numbers the overflow is written out (`Text.ParseInt64`).

## Main results

1. *Staging refinement.* When no put lands beneath a pending path, the pending puts are at every
   step exactly the entries last written by an explicit put, and the tree built is the meaning of
   the request (`StagingRefinement`); the tracking is exact at every step if and only if nothing is
   shadowed (`TrackingIsExact`). Without that hypothesis the claim is false: a validated request
   whose every operation succeeds can lose a moved entry (`ValidatedRequestLosesAnEntry`). For
   every request, shadowing or not, `BuildIsIntended` gives the exact condition, on the stale puts
   alone (pending puts no entry stands for): each can be cleaned, has no entry above it, has nothing
   below it but pending entries, and either equals the entry in its place or has a pending put below.
   Every put at a tracked path is committed with the filter's blob, every other with its own
   (`BuiltEntries`).
2. *Order, moves, validation.* Move-free requests do not depend on their order
   (`OrderIndependence`), moves relabel and nothing else (`MoveOnlyRelabels`), moving back restores
   the index always and the pending map if and only if nothing pending lay under the destination
   (`MoveBackRestores`), so it restores everything after a run without shadowing
   (`UnshadowedMoveBack`) and can lose an entry after one with (`MoveBackForgets`,
   `MoveBackLosesAnEntry`). Validation is a normal form (`ValidationIsNormalForm`).
3. *Refs over all interleavings.* Among commits and branch creations no commit is lost and at most one
   of several requests pinned to a head succeeds (`NoLostCommits`, `OnePinnedSuccess`). Among all
   steps both hold until a deletion or push that takes effect rewinds the branch; refused ones do not
   count (`CommitStaysUntilRewound`, `PinnedOnceUntilRewound`, `RewindsExactly`). The
   default branch stays (`DefaultBranchStays`), every reachable blob stays below the limit
   (`SizesStayBelowLimit`), push reports replay to the truth (`ReportsReplay`, `EventsLeadToRefs`).
   No ref ever becomes a directory of another (`RefsStayFlat`). Every call of `ApplyCommit` is a run
   of the interleaved machine (`ApplyCommitIsARun`), and `ApplyCommitSucceedsExactly` says when it
   succeeds.
4. *Policy.* An accepted push introduces no blocked entry that no old commit had
   (`AcceptedPushAddsNothingBlocked`). That an API commit keeps blocked paths is false in general:
   a move re-keys stale puts without asking the policy, and the replay writes them
   (`PolicyMissesRekeyedPut`). It holds for exactly the requests whose deepest pending puts at blocked
   paths put back what the tree had (`BuildKeepsExactly`, `ApiCommitPassesHookExactly`), and for all
   in which no move re-keys a pending put onto a blocked path (`BuildKeepsBlockedPaths`,
   `ApiCommitPassesHook`). Over whole runs of builds that meet the exact condition and of accepted
   pushes, every blocked entry of a reachable commit was at that path at the start
   (`BlockedEntriesAreOld`).
5. *LFS.* Uploaded rows point at their content in every interleaving, verified rows never change,
   finished uploads leave no orphans (`UploadedRowsPointAtContent`, `VerifiedRowsStay`,
   `FinishedUploadsLeaveNoOrphans`). A successful upload whose row is keyed under `objects/` downloads
   (`UploadedContentDownloads`); under an object's own key it need not (`SuccessfulUploadCanBeGone`).
   A verification flips only rows whose bytes it saw (`VerifiedOnlyWhatIsStored`).
   The service's calls are runs of the protocol (`LfsUploadIsARun`, `StoreObjectIsARun`). The codec
   round-trips (`PointerRoundTrip`); clean then smudge gives the content back exactly when no earlier
   row is in the way (`CleanThenReadBack`).
6. *Diffs.* The parsers invert Git's formats and agree (`RawRoundTrip`, `NumstatAgreesWithRaw`); the
   collector depends only on the bytes of the stream (`FedIsSections`) and keeps a patch exactly
   when it fits (`PatchKeptExactlyWhenItFits`). Together: printing changes in all three formats and
   reading them gives back every change with its counts and patch (`DiffIsRead`), and what is
   malformed or does not fit together is refused (`MalformedRawRefused`, `SectionsMustFit`).

## Where the code and its comments differ

- `removePendingPuts` (`internal/gitbackend/local_commit.go:324`) clears the path and what is below
  it, never its ancestors, so a moved put can stay pending above a later put. The comment on
  `stageCommitOps` says it returns the operations that survived; the model follows the code, and
  `Shadowing` shows what that costs.
- Path policies are documented as enforced identically on API commits and pushes (`README.md:16`).
  `moveIndexPath` asks the policy about the index entries it moves
  (`internal/gitbackend/local_commit.go:367-373`), but `movePendingPuts` re-keys pending puts without
  asking (`internal/gitbackend/local_commit.go:457-468`), and the replay writes them. From a tree
  holding `a/z`, with `dest/x` blocked: put `p`; move `p` to `a/x`; put `a/x/y`; move `a/x/y` to `q`;
  move `a` to `dest`. The commit has `dest/x`; `StalePuts` proves it, `BlockedPaths` gives the exact
  condition.
- The collector asks for one section per file (`internal/gitbackend/local_diff.go:390-399`), while Git
  prints a change of type as a deletion and a creation, two sections. A diff with such a change is
  therefore refused (`TypeChangesAreRefused`).
- When a verified row of the same size exists, `registerUpload` accepts it without looking at storage
  and deletes the new copy (`internal/services/lfs/service.go:117-126`). A mismatching object put may
  have emptied that row's key (`internal/services/lfs/service.go:312-316`), and then the upload
  succeeds while nothing can be downloaded (`SuccessfulUploadCanBeGone`).
- A branch can be created at any commit the store knows, reachable or not
  (`internal/gitbackend/local_branch.go:55-64`), so the size limit survives a creation exactly when
  the target's history is small (`CreateKeepsSizesExactly`, and `CreationCanBreakLimit` has a store
  where it is not). `SizesStayBelowLimit` therefore asks for reachable targets; a store that is small
  throughout needs no such care, given Git's quarantine (`QuarantineKeepsStoreSmall`).

## Model

| member | source | states |
|---|---|---|
| Paths.UnderIsSegmentPrefix | internal/domain/path_policy.go:97 | the string test "equal, or a prefix followed by a slash" holds exactly when the segment list is a prefix, so it never matches part of a name |
| Paths.RebaseBack | internal/gitbackend/local_commit.go:368 | rewriting a path from one directory to another lands under the destination and is undone by the reverse rewriting |
| Paths.RebaseKeepsOrder | internal/gitbackend/local_commit.go:368 | rewriting is injective and keeps which path lies under which |
| Paths.NormalizeIsNormalForm | internal/gitbackend/local.go:736-741 | normalizing gives the root or a clean path, fixes exactly those, and twice is once |
| Paths.NormalizeStep | internal/gitbackend/local.go:740 | what one more name does to a normalized path: nothing for an empty name or a dot, the parent for two dots (the root stays), else a child |
| Paths.NormalizeName | internal/gitbackend/local.go:740 | the normal form of a single name: itself when plain, else the root |
| PathPolicy.PathBlocked | internal/domain/path_policy.go:95-102 | reports a block if and only if some pattern is the path or one of its directories, and then the first such pattern |
| PathPolicy.BlockedBySegments | internal/domain/path_policy.go:95-102 | blocking compares whole segments: some pattern's segment list is a prefix of the path's |
| PathPolicy.BlockedDownward | internal/domain/path_policy.go:97 | everything below a blocked path is blocked |
| PathPolicy.NormalizePathPattern | internal/domain/path_policy.go:79-93 | accepts exactly the patterns that, with outer slashes trimmed, are clean paths without NUL or newline, and returns that path |
| PathPolicy.NormalPatterns | internal/domain/path_policy.go:79-93 | a pattern has normal form p exactly when p is good and the pattern is p with slashes around it; a normal form is its own normal form |
| PathPolicy.GoodPatternsAreNames | internal/domain/path_policy.go:79-93 | the good patterns are exactly the non-empty lists of names with slashes between them, a name being anything but the empty one, a dot or two dots that lacks slash, NUL and newline |
| CommitOps.NormalizeTreePath | internal/gitbackend/local.go:736-741 | refuses a path with NUL, otherwise gives its normal form |
| CommitOps.ValidateCommitOp | internal/gitbackend/local_commit.go:171-233 | one operation is accepted exactly under the stated rules (usable paths, bare moves not into themselves, deletes without object, puts with a blob id and no mode or a file mode); it comes back with normal paths, mode 100644 for a put without one, and everything else as given |
| CommitOps.OverlapsSeen | internal/gitbackend/local_commit.go:204-211 | finds an overlap if and only if some path already seen is equal to, above or below the new one |
| CommitOps.ValidateCommitOps | internal/gitbackend/local_commit.go:161-236 | succeeds if and only if there are 1 to 1000 operations, each is acceptable, and puts and deletes are pairwise incomparable; the result has as many operations, each the normalized one given at its place |
| CommitOps.AcceptedMeansRules | internal/gitbackend/local_commit.go:161-236 | a list is accepted if and only if it meets the rules written out character by character (no NUL or control character, 40 hex digits, the two modes or none, no path equal to, above or below another); what each operation of it becomes |
| CommitOps.ValidationIsNormalForm | internal/gitbackend/local_commit.go:161-236 | what validation returns is valid, the valid lists are exactly those it returns unchanged, and validating again changes nothing |
| GitIndex.PutPrefixFree | internal/gitbackend/local_commit.go:522-538 | adding a line keeps every file from being a directory too |
| GitIndex.FreeChecks | internal/gitbackend/local_commit.go:351-361 | the two tests of a move's destination hold together exactly when nothing is at, below or above it |
| GitIndex.RelabelPrefixFree | internal/gitbackend/local_commit.go:363-379 | renaming a subtree to a free place keeps the index prefix-free |
| StringOrder.SortStrings | internal/gitbackend/local_commit.go:329-333 | gives the keys in strictly increasing byte order, each once |
| StringOrder.LessMeans | internal/gitbackend/local_commit.go:329-333 | byte order: at the first place where two strings differ one ends or has the smaller character |
| Staging.FreshLines | internal/gitbackend/local_commit.go:522-538 | adding lines at free, pairwise incomparable paths adds exactly those entries and the replace rule never fires |
| Staging.MoveLines | internal/gitbackend/local_commit.go:363-379 | the delete lines and add lines of a move give the relabelled index |
| Staging.StagingArea.constructor | internal/gitbackend/local_commit.go:74-82 | staging starts from the tree of the head with nothing pending |
| Staging.StagingArea.UpdateIndex | internal/gitbackend/local_commit.go:522-538 | the new index is the old one with all lines applied in order |
| Staging.StagingArea.ListIndexEntries | internal/gitbackend/local_commit.go:385-409 | lists exactly the entries at a path and below it, each once |
| Staging.StagingArea.IndexParentOccupied | internal/gitbackend/local_commit.go:413-447 | true if and only if some strict ancestor of the destination is a file of the index |
| Staging.StagingArea.RemovePendingPuts | internal/gitbackend/local_commit.go:449-455 | drops exactly the pending puts at the path and below it |
| Staging.StagingArea.MovePendingPuts | internal/gitbackend/local_commit.go:457-468 | re-keys exactly the pending puts under the source, which win over what they meet, and leaves the rest |
| Staging.StagingArea.MoveChanges | internal/gitbackend/local_commit.go:363-375 | the lines are all deletes followed by all adds, unless the policy refuses a target |
| Staging.StagingArea.MoveIndexPath | internal/gitbackend/local_commit.go:342-382 | the new state, or the failure that leaves the state alone, is that of the move specification |
| Staging.StagingArea.StageCommitOp | internal/gitbackend/local_commit.go:289-327 | one operation has the specified outcome; a failure changes neither the index nor the pending puts |
| Staging.StagingArea.StageCommitOps | internal/gitbackend/local_commit.go:286-340 | the whole list has the outcome of its operations one by one, and returns the surviving puts in path order |
| Staging.StagingArea.SurvivingPuts | internal/gitbackend/local_commit.go:329-339 | lists every pending put once, in path order |
| Staging.StagingArea.CleanLFSTracked | internal/gitbackend/local_commit.go:472-519 | succeeds exactly when every put cleans; each result is the put with only its blob changed, and that is the blob the filter returned at a tracked path and the put's own at any other; a failure is that of the first put that does not clean |
| Staging.CleanedMeans | internal/gitbackend/local_commit.go:493-516 | a put at a tracked path is committed with exactly what the filter returns for its path, blob and size, any other with its own blob; the failures are no filter, the filter's refusal, or a result that is no object id |
| Replay.PutListOrder | internal/gitbackend/local_commit.go:333-338 | path order puts a directory before everything in it |
| Replay.ReplayClosedForm | internal/gitbackend/local_commit.go:97 | replaying puts in path order gives the deepest puts together with the entries comparable with none |
| Replay.BuildTree | internal/gitbackend/local_commit.go:84-99 | staging, cleaning and replaying fail exactly as staging does or as the first pending put in path order that cannot be cleaned, else give the replayed index, prefix-free |
| StagingMeaning.StepAgrees | internal/gitbackend/local_commit.go:289-327 | one staged operation fails as its meaning does, or leaves the same prefix-free index |
| StagingMeaning.RunAgrees | internal/gitbackend/local_commit.go:286-327 | with or without shadowing, staging fails as the meaning does and leaves the same index |
| StagingMeaning.StepTracks | internal/gitbackend/local_commit.go:324-325 | one step keeps the pending puts exact if and only if it puts nothing beneath a pending path |
| StagingMeaning.TrackingIsExact | internal/gitbackend/local_commit.go:286-327 | at every step the pending puts are exactly the entries last written by a put, if and only if the run shadows nothing |
| StagingMeaning.FinalPending | internal/gitbackend/local_commit.go:286-339 | a run that shadows nothing ends with exactly the put entries pending |
| StagingMeaning.RunAccounted | internal/gitbackend/local_commit.go:315-320 | every entry of the result is an unchanged tree entry, a tree entry moved to a permitted path, or a put at a permitted path |
| StagingMeaning.ReplayIsExact | internal/gitbackend/local_commit.go:91-99 | the replay gives the intended index if and only if each stale put is harmless: no entry above it, nothing below it but pending entries, and either equal to the entry in its place or with a pending put below it |
| StagingTheorems.BuildIsIntended | internal/gitbackend/local_commit.go:84-99 | for every request the build fails where its meaning fails, is refused exactly when a put entry or a stale put cannot be cleaned, and comes out as meant if and only if, unless a put entry cannot be cleaned anyway, every stale put can be cleaned and is harmless |
| StagingTheorems.StagingRefinement | internal/gitbackend/local_commit.go:84-99 | without shadowing the build is the meaning of the request: tree entries keep their objects wherever moved, puts get their cleaned blobs, nothing else is there |
| StagingTheorems.BuiltEntries | internal/gitbackend/local_commit.go:84-99 | in the built tree, without shadowing, an entry that came from the tree is the same wherever it was moved, and a put has its mode and the filter's blob at tracked paths, its own blob at the others |
| StagingTheorems.MoveFreeNeverShadows | internal/gitbackend/local_commit.go:204-211 | a validated request without moves never shadows |
| StagingTheorems.MoveFreeRun | internal/gitbackend/local_commit.go:296-326 | a move-free run succeeds exactly when deleted paths exist and put paths are permitted, and gives the closed form |
| StagingTheorems.OrderIndependence | internal/gitbackend/local_commit.go:286-340 | every permutation of a validated move-free request succeeds or fails alike, with the same index and puts: the old index minus what is under deletes, minus what is comparable with puts, plus the puts |
| StagingTheorems.MoveSucceedsExactly | internal/gitbackend/local_commit.go:343-375 | when a move succeeds, and which of three errors it gives otherwise |
| StagingTheorems.MoveOnlyRelabels | internal/gitbackend/local_commit.go:342-382 | a move keeps the number of entries, renames the subtree one-to-one with modes and blobs kept, touches nothing else and leaves the index prefix-free |
| StagingTheorems.PutMeans | internal/gitbackend/local_commit.go:315-325 | path by path: a permitted put replaces whatever is at, above and below its path in the index and clears the pending puts below it; a refused one is blocked |
| StagingTheorems.DeleteMeans | internal/gitbackend/local_commit.go:296-313 | path by path: a delete drops the path and all below it from index and pending puts, and fails exactly when nothing is there |
| StagingTheorems.MovePutsMean | internal/gitbackend/local_commit.go:457-468 | path by path: the pending puts under the source are pending at the rewritten paths and win over what they meet; all others stay |
| StagingTheorems.MoveBackRestores | internal/gitbackend/local_commit.go:342-382 | the reverse move succeeds if the policy permits and restores the index; the pending puts too if and only if none lay under the destination |
| StagingTheorems.UnshadowedMoveBack | internal/gitbackend/local_commit.go:342-382 | after any run that shadowed nothing, moving there and back restores index and pending puts |
| StagingTheorems.StagedPutsArePermitted | internal/gitbackend/local_commit.go:315-320 | a run that succeeds had every put permitted |
| StagingTheorems.EarlyCheckRefusesNothingMore | internal/services/repositories/service.go:545-552 | a request refused by the service's early policy check would fail in staging anyway |
| BlockedPaths.BuildKeepsExactly | internal/gitbackend/local_commit.go:315-320 | for every request the built tree has nothing new at the paths the policy refuses if and only if the deepest pending puts there put back what the tree has |
| BlockedPaths.PermittedExactly | internal/gitbackend/local_commit.go:457-468 | the pending puts are at permitted paths at every step if and only if no move re-keys one onto a refused path |
| BlockedPaths.NoShadowingMovesPermitted | internal/gitbackend/local_commit.go:363-380 | a run that shadows nothing never re-keys a put the policy was not asked about |
| BlockedPaths.BuildKeepsBlockedPaths | internal/services/repositories/service.go:686-713 | a build in which no move re-keys a pending put onto a blocked path neither adds nor changes an entry at a blocked path |
| Shadowing.ShadowedReplayLosesAnEntry | internal/gitbackend/local_commit.go:324-325 | for any paths laid out like this every operation succeeds and the meaning keeps the moved entry, but the built tree lacks it, and the run shadows |
| Shadowing.ShadowingRequestIsValid | internal/gitbackend/local_commit.go:161-236 | the layout exists for any distinct names, and its request passes validation |
| Shadowing.ValidatedRequestLosesAnEntry | internal/gitbackend/local_commit.go:84-99 | put x, move x to a, put a/b, move existing to a/c is validated, succeeds, and drops a/c, whatever the names |
| StalePuts.RekeyedPutIsWritten | internal/gitbackend/local_commit.go:457-468 | a stale put re-keyed by the move of a directory is in the built tree, although the policy was not asked about its path |
| StalePuts.PolicyMissesRekeyedPut | internal/gitbackend/local_commit.go:367-380 | put p, move p to a/x, put a/x/y, move a/x/y to q, move a to dest is validated and succeeds with dest/x blocked, and the built tree has dest/x, which the old one had not |
| StalePuts.MoveBackForgets | internal/gitbackend/local_commit.go:457-468 | a state the code reaches from which a move there and back restores the index but not the pending puts |
| StalePuts.MoveBackLosesAnEntry | internal/gitbackend/local_commit.go:84-99 | the tree built then has the stale put where the meaning keeps the entry that was moved |
| StalePuts.ThereAndBackIsValid | internal/gitbackend/local_commit.go:161-236 | that request passes validation, whatever the names |
| CommitGraph.AncestorStable | internal/gitbackend/local_commit.go:121-126 | new commits change no history that was already there |
| CommitGraph.CommitTreeStores | internal/gitbackend/local_commit.go:121-129 | commit-tree stores the commit under its id, keeps every older one, and adds nothing if the commit was there |
| RefMachine.HeadCheck | internal/gitbackend/local_commit.go:37-51 | passes exactly for an unborn branch expected unborn, or a born one with no or the right expectation; which error otherwise |
| RefMachine.RunSound | internal/gitbackend/local_commit.go:37-136 | every interleaving keeps refs at stored commits and the store append-only, and every built commit's parents are the head its request read |
| RefMachine.SwapAdvances | internal/gitbackend/local_commit.go:131-136 | a failed swap changes no ref; a successful one moves its branch from exactly the head read, the new commit's parent |
| RefMachine.NoLostCommits | internal/gitbackend/local_commit.go:37-136 | in every interleaving with branch creation, a successful commit's parents are the value of its branch just before the swap, and it stays an ancestor of the head |
| RefMachine.RewindsExactly | internal/gitbackend/local_branch.go:104-108 | a branch loses its old head exactly by a deletion that still finds the value it read, or by a push the hook let in that still finds the value it saw and goes to a commit without that head |
| RefMachine.CommitStaysUntilRewound | internal/gitbackend/local_commit.go:131-136 | among all steps, deletions and pushes included, a successful commit's parents are the value of its branch just before the swap, and it stays an ancestor of the head until a deletion or push that takes effect rewinds the branch; refused ones do not end it |
| RefMachine.OnePinnedSuccess | internal/gitbackend/local_commit.go:42-48 | in every interleaving of commits and branch creations, at most one of several requests pinned to the same head, or to an unborn branch, succeeds |
| RefMachine.PinnedOnceUntilRewound | internal/gitbackend/local_commit.go:42-48 | among all steps, as long as nothing rewinds the branch, a later success on it is pinned to another head than an earlier one |
| RefSafety.LogExplainsRefs | internal/gitbackend/local_commit.go:131-136 | without pushes the refs are the first refs with the logged successes applied in order, and the requests that end well are exactly those logged, each once |
| RefSafety.DefaultBranchStays | internal/gitbackend/local_branch.go:92-110 | under any interleaved API steps the branch HEAD points at is never removed once born, and each delete reports the value it removed |
| RefSteps.RefsStayFlat | internal/gitbackend/local_branch.go:61-66 | in every interleaving of commits, creations, deletions and pushes, no ref is ever a directory of another |
| RefSteps.ReadDoes | internal/gitbackend/local_commit.go:37-51 | a request goes on from the head it reads, or from none, exactly when that is what it expects |
| RefSteps.BuildDoes | internal/gitbackend/local_commit.go:84-129 | it stores a commit of the built tree on the head it read, with the given people, time and message, exactly when the build passed and the tree is new |
| RefSteps.SwapDoes | internal/gitbackend/local_commit.go:131-136 | it moves the branch exactly when the head is still the one it read, or the name is still free beside all refs |
| RefSteps.CreateDoes | internal/gitbackend/local_branch.go:42-69 | a creation takes effect exactly for a known commit and a name that is free beside all refs |
| RefSteps.DeleteDoes | internal/gitbackend/local_branch.go:73-111 | an undisturbed deletion removes the branch exactly when it is there, is not HEAD's and has the expected head |
| RefSteps.PushDoes | internal/gitbackend/hook.go:54-56 | an undisturbed push moves a ref exactly when the hook accepts the tip and the ref is as the client saw it, a new name being free beside all refs |
| RefSteps.PushDeletes | internal/gitbackend/hook.go:84-87 | a push deletes a ref exactly when it is as the client saw it; the hook lets deletions pass |
| RefSteps.ReceiveDoes | internal/gitbackend/hook.go:54-56 | received objects move no ref; a commit with known parents is stored once |
| HistoryInvariant.RunKept | internal/gitbackend/local_commit.go:37-136 | if builds keep a property of entries, branches start at commits that have it and the hook lets in no others, then every entry of every reachable commit has it after every run |
| SizeLimit.SmallBuild | internal/gitbackend/local_commit.go:53-62 | a build from a small tree gives a small tree: raw puts, cleaned pointers and moved entries alike |
| SizeLimit.ServiceFilterKeepsLimit | internal/services/repositories/service.go:627-660 | the service's clean filter meets what the size invariant asks of a filter, whatever blobs, rows and objects its calls find |
| SizeLimit.CheckedTipIsSmall | internal/gitbackend/hook.go:89-111 | a tip the hook accepts brings no reachable blob at or above the limit |
| SizeLimit.SizesStayBelowLimit | internal/gitbackend/hook.go:89-111 | every run of accepted pushes, API commits, branch creations at reachable commits and deletions keeps every reachable blob below the limit |
| SizeLimit.CreateKeepsSizesExactly | internal/gitbackend/local_branch.go:55-68 | a branch creation keeps the limit if and only if the history of its target is small |
| SizeLimit.CreationCanBreakLimit | internal/gitbackend/local_branch.go:55-68 | a repository at rest whose refs are small but which holds an unreachable large commit: a branch created there breaks the limit |
| SizeLimit.QuarantineKeepsStoreSmall | internal/gitbackend/hook.go:89-111 | when pushed objects join the store only once the hook accepted them, a store small throughout stays so, wherever branches are created |
| PolicyHistory.GuardMeetsPolicy | internal/gitbackend/local_commit.go:457-468 | a build that asks the policy meets the condition of the whole-run invariant when no move re-keys a pending put onto a refused path |
| PolicyHistory.BlockedEntriesAreOld | internal/gitbackend/hook.go:113-142 | in every run of accepted pushes, API commits whose deepest pending puts at refused paths put back what the parent has, branch creations at reachable commits and deletions, what a reachable commit has at a refused path some commit reachable at the start had there |
| RepositoryModel.VerifyPutInputs | internal/gitbackend/local_commit.go:239-283 | succeeds if and only if every put blob exists, and gives exactly their sizes |
| RepositoryModel.Repository.constructor | internal/gitbackend/local.go:74-95 | a new repository has no commits and no refs, with HEAD at the given ref |
| RepositoryModel.Repository.CheckCommit | internal/gitbackend/local_commit.go:28-62 | the first failing check, in order, decides the error; otherwise the base, the normal operations and the blob sizes |
| RepositoryModel.Repository.PrepareCommit | internal/gitbackend/local_commit.go:28-113 | after the checks, the build's failure, a tree that is not new, or the tree to commit |
| RepositoryModel.Repository.CommitAndSwap | internal/gitbackend/local_commit.go:121-136 | moves the ref if and only if it still has the base (and a new name does not collide); a failure changes no ref |
| RepositoryModel.Repository.ApplyCommit | internal/gitbackend/local_commit.go:22-137 | a failure changes no ref; a success puts on refs/heads/ and the name one commit: the built tree, the old head or nothing as parent, the author and message given, the time, and the committer given or else the author; at most one commit is stored and no ref becomes a directory of another |
| RepositoryModel.ChecksPassExactly | internal/gitbackend/local_commit.go:28-62 | the checks pass exactly for a valid name, an object id or nothing as expected head, author and message given, operations by the rules, the head as expected, and put blobs that exist below the limit; which error otherwise, in order |
| RepositoryModel.ApplyCommitSucceedsExactly | internal/gitbackend/local_commit.go:22-137 | a commit succeeds if and only if the checks pass, the build succeeds, the tree differs from the head's, and for a first commit no ref is a directory of the new one or under it; which error otherwise |
| RepositoryModel.Repository.CreateBranch | internal/gitbackend/local_branch.go:42-69 | succeeds exactly for a valid name and an existing commit when refs/heads/ and the name is no ref, no directory of one and not under one; only that ref changes; which error otherwise |
| RepositoryModel.Repository.DeleteBranch | internal/gitbackend/local_branch.go:73-111 | succeeds exactly for an existing branch that is not the default and has the expected value; reports what it removed and never removes the default; which error otherwise |
| RepositoryModel.BranchNameRules | internal/gitbackend/local_branch.go:114-129 | a name is valid exactly if it is not empty, does not start with a dash or refs/, has no control character and Git takes it; its ref is refs/heads/ and the name |
| RepositoryModel.BuiltMeansRequest | internal/gitbackend/local_commit.go:53-99 | what ApplyCommit commits, when nothing is shadowed, is the meaning of the request with put blobs cleaned |
| RepositoryModel.ApplyCommitIsARun | internal/gitbackend/local_commit.go:22-137 | every outcome ApplyCommit can have, success or failure, is that of a run of the interleaved machine: same store, same refs, and the success it reports is the one logged |
| PushHook.CheckObjects | internal/gitbackend/hook.go:98-110 | accepts if and only if no listed blob has reached the limit; a refusal names the first that has |
| PushHook.CheckPaths | internal/gitbackend/hook.go:131-141 | accepts if and only if no listed path is blocked; a refusal names the first, its first matching pattern and its reason |
| PushHook.CheckLine | internal/gitbackend/hook.go:73-142 | one line is accepted exactly when it is blank, deletes, or its new blobs and the changed paths of all its new commits pass; a refusal is for a malformed line, names the first oversized blob, or, no blob being oversized, the first blocked path of the first commit that has one |
| PushHook.PreReceive | internal/gitbackend/hook.go:56-145 | a push is accepted if and only if every line passes; otherwise the first line that does not decides the verdict, with the last reason given for the pattern |
| PushHook.LinesPassExactly | internal/gitbackend/hook.go:73-142 | a line passes if and only if it is not malformed and, unless it deletes, no new blob has reached the limit and no changed path of a new commit is a pattern or lies below one |
| PushHook.ReasonIsTheLast | internal/gitbackend/hook.go:58-65 | the reason reported is the last non-empty one given for the pattern, or none |
| PushHook.AcceptedSizes | internal/gitbackend/hook.go:89-111 | an accepted line passes the size check of the interleaved machine's hook step |
| PushHook.AcceptedPaths | internal/gitbackend/hook.go:113-142 | an accepted line passes the path check of the interleaved machine's hook step |
| PushHook.AcceptedLineAddsNothingBlocked | internal/gitbackend/hook.go:113-142 | for every commit an accepted ref update introduces, merges included, and every blocked path in its tree, some commit reachable before had the same mode and blob there |
| PushHook.AcceptedPushAddsNothingBlocked | internal/gitbackend/hook.go:73-144 | the same for every commit any line of an accepted push introduces: nothing new appears at a blocked path |
| PushHook.ApiCommitPassesHookExactly | internal/gitbackend/hook.go:120-142 | for every request, the hook's path check accepts the commit an API build makes under the policy check if and only if the deepest pending puts at blocked paths put back what the parent has |
| PushHook.ApiCommitPassesHook | internal/gitbackend/hook.go:120-142 | the commit of an API build in which no move re-keys a pending put onto a blocked path passes the hook's path check, and at blocked paths only keeps or drops what its parent had |
| PushEvents.DiffRefs | internal/gitbackend/local.go:758-780 | whatever order the maps are walked in, names every changed ref exactly once with both values and nothing else |
| PushEvents.AppendCreated | internal/gitbackend/local.go:771-777 | completes a report of changed and removed refs with the created ones |
| PushEvents.ReportsReplay | internal/gitbackend/local.go:758-780 | applying the reported changes in any order to the refs before gives the refs after |
| PushEvents.EventsLeadToRefs | internal/gitbackend/local.go:127-160 | when only pushes change a repository, its lock makes the reports in lock order lead from the first refs to the last |
| LfsPointer.ParseLFSPointer | internal/domain/lfs.go:100-127 | recognizes exactly the blobs within 1024 bytes whose lines give a valid oid and a 64-bit size; the last of each wins and a bad size is fatal |
| LfsPointer.PointerRoundTrip | internal/domain/lfs.go:28-30 | for every valid oid and size from 0 to 2^63-1 the encoding parses to the same pointer and has at most 144 bytes |
| LfsPointer.PointerText | internal/domain/lfs.go:28-30 | the text of a pointer, written out for any oid and size, is the encoding and is read back |
| LfsPointer.PointersAccepted | internal/domain/lfs.go:100-127 | what is read as a pointer and as which, in terms of the lines: the version first, the last oid line and the last size line decide, every size line is a number, 1 to 1024 bytes |
| LfsPointer.ParsedIsCanonical | internal/domain/lfs.go:100-127 | whatever parses is a valid pointer, and its canonical encoding parses the same |
| Text.PrintedNumberReads | internal/domain/lfs.go:115-119 | a printed number is read back exactly when it fits 64 bits, with either sign |
| Text.NumbersRead | internal/domain/lfs.go:115-119 | exactly the printed numbers within 64 bits, with a sign or leading zeros if any, are read as numbers, and as themselves |
| LfsKeys.KeysAreDistinct | internal/services/lfs/service.go:345-352 | both key builders are injective in repository and id, and never give the same key |
| LfsKeys.KeyTexts | internal/services/lfs/service.go:345-352 | both keys written out |
| LfsProtocol.RunSound | internal/services/lfs/service.go:64-127 | every interleaving of uploads, registrations, puts and verifications keeps rows and uploads sound |
| LfsProtocol.UploadedRowsPointAtContent | internal/services/lfs/service.go:64-127 | every row keyed under objects/ is verified and points at stored bytes whose hash is its oid and whose length is its size |
| LfsProtocol.FinishedUploadsLeaveNoOrphans | internal/services/lfs/service.go:82-126 | a finished upload's key is stored if and only if exactly one row references it, and never more than one does |
| LfsProtocol.VerifiedRowStep | internal/db/queries/lfs_objects.sql:1-34 | no step drops a row or changes a verified one |
| LfsProtocol.VerifiedRowsStay | internal/services/lfs/service.go:100-127 | a verified row never changes again, in any interleaving |
| LfsProtocol.SuccessfulUploadsAreRegistered | internal/services/lfs/service.go:93-97 | a successful upload has a verified row of exactly its size for its content, in any interleaving |
| LfsSteps.VerifiedOnlyWhatIsStored | internal/services/lfs/service.go:252-276 | in every interleaving, a verification that got as far as flipping its row read that row and then saw bytes of the announced size under its key; once it ended well the row is verified |
| LfsSteps.VerifyDoes | internal/services/lfs/service.go:252-276 | an undisturbed verification ends well, with the row verified, if and only if the row exists and its key holds bytes of the announced length; otherwise nothing changes |
| LfsSteps.CreateRowDoes | internal/services/lfs/service.go:176-187 | a registration adds a pending row under the object's key unless there is a row |
| LfsSteps.PutDoes | internal/services/lfs/service.go:299-321 | an undisturbed object put verifies the row when the bytes match and empties the key when they do not |
| LfsSteps.FailedWriteDoes | internal/services/lfs/service.go:82-85 | an upload whose storage write fails ends badly and leaves nothing under its key |
| LfsSteps.FailedCallDoes | internal/services/lfs/service.go:93-96 | an upload whose registry call fails ends badly and takes its bytes back |
| LfsRuns.UploadedContentDownloads | internal/services/lfs/service.go:93-97 | in any interleaving a successful upload has a verified row of its size, and if that row is keyed under objects/ the download gives bytes with its hash and size |
| LfsRuns.SuccessfulUploadCanBeGone | internal/services/lfs/service.go:117-126 | for any content, mismatching bytes and upload id: two object puts, the second wrong, then a signed upload that succeeds although its download fails |
| LfsRuns.PutObjectIsARun | internal/services/lfs/service.go:299-321 | PutObject is a run of two protocol steps: same rows, same objects, same outcome |
| LfsRuns.StoreObjectIsARun | internal/services/lfs/service.go:326-343 | StoreObject is a run: no step for a verified object, else a row and an object put |
| LfsRuns.LfsUploadIsARun | internal/services/lfs/service.go:64-127 | a signed upload is a run of the protocol: same rows, same objects, and it ends as the call does |
| CleanSmudge.FileService.WriteBlob | internal/gitbackend/local.go:503-528 | refuses content at or above the limit, else stores it under its id |
| CleanSmudge.FileService.PutObject | internal/services/lfs/service.go:299-321 | bytes of another size or hash empty the object's key; right ones are stored and flip an existing row to verified |
| CleanSmudge.FileService.StoreObject | internal/services/lfs/service.go:326-343 | does nothing for a verified object, else records a pending row and puts the bytes |
| CleanSmudge.FileService.Clean | internal/services/repositories/service.go:621-661 | a small pointer blob is returned unchanged; anything else is stored in LFS and replaced by its pointer blob |
| CleanSmudge.FileService.LfsUpload | internal/services/lfs/service.go:64-98 | a signed upload keeps its key exactly when its row was created or taken over, and fails on a size mismatch with the bytes or with a verified row |
| CleanSmudge.FileService.RegisterUpload | internal/services/lfs/service.go:100-127 | inserts a verified row, else takes over a pending one, else accepts an equal verified one and drops the copy |
| CleanSmudge.FileService.BatchUpload | internal/services/lfs/service.go:166-187 | an object that is not verified is wanted, and gets a pending row under its key unless it has a row |
| CleanSmudge.FileService.Verify | internal/services/lfs/service.go:252-276 | succeeds, verifying the row, if and only if the row exists and its key holds bytes of the announced length; changes nothing otherwise |
| CleanSmudge.FileService.Upload | internal/services/repositories/service.go:843-907 | below the threshold the content becomes a blob, from it on its pointer does; bytes of another length than announced are a mismatch and change no blob, row or object below the threshold |
| CleanSmudge.FileService.GetObject | internal/services/lfs/service.go:278-296 | gives the bytes and row size of a verified, present object, else fails |
| CleanSmudge.FileService.PrepareFile | internal/services/repositories/service.go:407-468 | the announced size and the oid are those of what reading the blob back will give |
| CleanSmudge.FileService.StreamFile | internal/services/repositories/service.go:470-482 | for a request prepared for a blob writes exactly the bytes read back for it; for an older request, only what its blob or a verified, present row still holds, and it fails exactly when that is gone |
| CleanSmudge.PointerFits | internal/config/config.go:67-69 | with a threshold of at least 1024 the pointer write never hits the blob limit |
| CleanSmudge.CleanIsIdempotent | internal/services/repositories/service.go:627-660 | cleaning what cleaning gave returns it and changes nothing |
| CleanSmudge.CleanKeepsLimit | internal/services/repositories/service.go:627-660 | the filter returns the blob it was given or the id of stored content below the limit |
| CleanSmudge.CleanStores | internal/services/repositories/service.go:639-659 | cleaning content that is no pointer always succeeds, with its pointer in the resulting blob |
| CleanSmudge.CleanThenReadBack | internal/services/repositories/service.go:627-660 | the cleaned blob reads back as the same bytes and size if and only if no earlier row for the oid is in the way; without one it always does |
| CleanSmudge.UploadThenReadBack | internal/services/repositories/service.go:843-907 | a signed upload of any size reads back as the same bytes and size, whichever way it is routed, if and only if a verified row for its oid, where there is one, still has the bytes |
| PatchCollector.DiffPatchCollector.constructor | internal/gitbackend/local_diff.go:342-344 | a new collector has seen nothing |
| PatchCollector.DiffPatchCollector.FinalizeSection | internal/gitbackend/local_diff.go:370-388 | counts the section under way as complete: files and byte total are those of the fold over all sections seen |
| PatchCollector.DiffPatchCollector.StartSection | internal/gitbackend/local_diff.go:346-355 | completes the section under way and opens an empty one |
| PatchCollector.DiffPatchCollector.Add | internal/gitbackend/local_diff.go:357-368 | lengthens the section under way; before the first header the bytes are dropped |
| PatchCollector.DiffPatchCollector.Finish | internal/gitbackend/local_diff.go:390-399 | succeeds if and only if there was one section per file; the files are the fold over the sections |
| PatchCollector.Feed | internal/gitbackend/local_diff.go:161-166 | one chunk does to the sections what its bytes mean, and tells whether the next one starts a line |
| PatchCollector.FeedAll | internal/gitbackend/local_diff.go:155-180 | the loop's sections are those of the chunks in order |
| PatchCollector.AddDiffPatches | internal/gitbackend/local_diff.go:155-190 | succeeds if and only if the stream has one section per file, with the files folded over its sections, however it was cut into chunks |
| PatchCollector.CollectedAt | internal/gitbackend/local_diff.go:370-388 | each file is decided by its own section and the bytes kept before it, and files without a section are left alone |
| PatchCollector.FeedStep | internal/gitbackend/local_diff.go:159-166 | one chunk opens a section, or lengthens the last, of the sections of the stream so far |
| PatchCollector.FedIsSections | internal/gitbackend/local_diff.go:155-180 | feeding chunks gives the sections of the whole stream, not of how it was chunked |
| PatchCollector.TotalIsPatchBytes | internal/gitbackend/local_diff.go:384-386 | the byte total is the sum of the kept patches |
| PatchCollector.PatchKeptExactlyWhenItFits | internal/gitbackend/local_diff.go:357-388 | a file gets its complete patch if and only if it is not binary, at most 1 MiB, within what the kept patches left of 10 MiB, and valid UTF-8; otherwise the first reason against it; nothing else of the file changes; the kept patches never pass 10 MiB |
| PatchCollector.PrintedSectionsRead | internal/gitbackend/local_diff.go:155-180 | the stream of any printed sections, each a header line and lines that are none, has exactly those sections |
| PatchCollector.LeadingLinesDropped | internal/gitbackend/local_diff.go:155-180 | lines before the first header belong to no section |
| PatchCollector.TypeChangesAreRefused | internal/gitbackend/local_diff.go:390-399 | on the stream Git prints for a list of files, whatever its sections hold, the rule of one section per file is met if and only if none of them changed its type |
| PatchCollector.OneTypeChange | internal/gitbackend/local_diff.go:390-399 | the stream of one file that becomes a symbolic link has two sections, so the diff is refused |
| DiffParsers.NextNULRecord | internal/gitbackend/local_diff.go:411-422 | gives the bytes before the next NUL and an offset strictly further on, or fails where there is no NUL |
| DiffParsers.ParseRawRecord | internal/gitbackend/local_diff.go:196-265 | one raw record is read or refused as the format says, and the offset strictly advances |
| DiffParsers.FinishRawRecord | internal/gitbackend/local_diff.go:236-265 | the status letter decides the paths, with a second one for renames and copies |
| DiffParsers.ParseRawDiff | internal/gitbackend/local_diff.go:193-273 | gives the files of the raw format up to 10,000 and whether there were more, or refuses |
| DiffParsers.RecordReads | internal/gitbackend/local_diff.go:205-265 | a printed record is read back as its file, and only it is consumed |
| DiffParsers.RawRoundTrip | internal/gitbackend/local_diff.go:193-273 | parsing the raw printing of any well-formed changes gives the list, or its first 10,000 with the truncated flag |
| DiffParsers.HeaderMeans | internal/gitbackend/local_diff.go:215-232 | what a header says: old and new mode, old and new blob, zeros standing for none |
| DiffParsers.RawRecordsAccepted | internal/gitbackend/local_diff.go:196-265 | a record is accepted if and only if it is a header of five words of the right form, a path, and for a rename or copy a second path; an empty one is skipped |
| DiffParsers.MalformedRawRefused | internal/gitbackend/local_diff.go:196-265 | after any well-formed changes, a record that is none makes the whole output malformed, and an empty one changes nothing |
| DiffParsers.KeysTellFilesApart | internal/gitbackend/local_diff.go:401-409 | two files have one key exactly when both are pairs with equal paths, or neither is and their shown paths are equal |
| DiffParsers.ParseNumstatRecord | internal/gitbackend/local_diff.go:284-327 | one numstat record is read or refused as the format says, and the offset strictly advances |
| DiffParsers.ParseNumstat | internal/gitbackend/local_diff.go:281-330 | gives the counts of the numstat format by key up to the limit, or refuses |
| DiffParsers.StatReads | internal/gitbackend/local_diff.go:285-327 | a printed numstat record is read back as its key and counts, and only it is consumed |
| DiffParsers.StatsRead | internal/gitbackend/local_diff.go:281-330 | parsing the numstat printing of changes with distinct new keys gives the counts of as many as the limit leaves room for |
| DiffParsers.StatRecordsAccepted | internal/gitbackend/local_diff.go:284-327 | a numstat record is accepted if and only if it has two counts, both dashes or both numbers of 64 bits, and a path, or two paths after it |
| DiffParsers.MalformedNumstatRefused | internal/gitbackend/local_diff.go:284-327 | after the counts of any well-formed changes, and before the limit, a record that is none makes the whole output malformed |
| DiffParsers.AttachStats | internal/gitbackend/local_diff.go:78-86 | succeeds if and only if every file has counts, and then gives each file its own additions, deletions and binary flag and changes nothing else |
| DiffParsers.NumstatAgreesWithRaw | internal/gitbackend/local_diff.go:58-86 | asked for as many entries as the raw parser returned, the numstat parser has the right counts for every one of those files |
| Diffs.Diff | internal/gitbackend/local_diff.go:53-103 | files, counts and patches are read in this order, patches only of a diff that is not cut off; anything malformed or missing refuses the whole |
| Diffs.OmitPatches | internal/gitbackend/local_diff.go:88-95 | of a cut-off diff every file is marked binary or too large, and nothing else changes |
| Diffs.DiffIsRead | internal/gitbackend/local_diff.go:53-103 | end to end: printing up to 10,000 changes in all three formats and reading them gives every change its status, paths, modes, blobs and counts, and its section as patch or the first reason why not |
| Diffs.LongDiffIsCut | internal/gitbackend/local_diff.go:58-95 | of more than 10,000 changes the first 10,000 are read, with their counts and no patches |
| Diffs.SectionsMustFit | internal/gitbackend/local_diff.go:390-399 | otherwise well-formed output is refused exactly when the patch stream has more or fewer sections than there are files |
| Diffs.CountsMustBeThere | internal/gitbackend/local_diff.go:78-82 | a diff is refused when the counts of some file are missing |

## Left out

- Running Git: subprocesses, timeouts, temporary files, environment and standard error. Git's own path rules (which make `update-index` or `write-tree` refuse a name) and missing objects in `write-tree` are not modelled.
- Trimming of white space around Git's output (`internal/gitbackend/hook.go:156`, `internal/gitbackend/local.go:550-556`): the hook works on the path list Git prints, so a first path beginning with white space is outside the theorem; and where the first put path begins with white space, the trimmed answer of `check-attr` (`internal/gitbackend/local_commit.go:487`) names another path, so the code leaves that put uncleaned while the model cleans it.
- Parent names that Git reads as a stage, such as `0:a` in `:0:a` (`internal/gitbackend/local_commit.go:424`): a parent directory is looked up by its plain name.
- Submodule entries, and the kinds of objects other than blobs and commits.
- Malformed expected heads and branch targets are one case (`None`); well-formed ones name a commit or nothing.
- Hashes are uninterpreted (their results have the right shape) and random upload keys are fresh; signatures, expiry and user ids of uploads are not modelled.
- The two policy listings of one request being read at different times.
- Presigned uploads to a bucket: clients write directly and `Verify` compares only a length, so nothing is claimed about content there.
- Rows keyed by object id: a mismatching upload empties that key, so a verified row of this kind need not have its bytes; only rows under `objects/` are claimed to.
- Registry calls that fail after committing, and deletions from storage that fail: the protocol assumes neither.
- What else `rev-list --objects` may list: the model only says that every blob no ref has is among the objects, which is all the size claim needs.
- The clean filter's own effect on blobs and rows while a commit is staged: staging sees a function, and `CleanSmudge` has the effects.
- White space of several bytes in the header of a raw diff record, which Git never prints.
- Choosing the two trees to compare in a diff (`internal/gitbackend/local_diff.go:33-41`); of its two commit ids nothing is said.
- The pre-receive input as text: lines are given as blank, malformed or a new value.
- HTTP and SSH servers, JSON shapes, error mapping, tokens, roles, audit, webhooks, archives, and the SQL beyond the row transitions of the LFS queries.
