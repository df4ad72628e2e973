# Verified models of the plugin's protocols and text engines

A Dafny 4.11 project beside the plugin's TypeScript sources. It models five parts of them and proves what they are
for. `dafny verify dfyconfig.toml` checks all of it.

- **Release completion** (`scripts/release-completion/`, modules `Release*`). A polling protocol against an arbitrary
  remote. Every answer and every clock reading is an arbitrary value; the `Remote` keeps a ghost log of what was asked
  and answered, and every claim is about that log. `ReleaseChecker` is the loop, step by step, over a mutable receipt;
  `ReleaseProtocol` is what each step and each whole run keeps; `ReleaseReceipt` says what evidence a log holds for
  each surface, `ReleaseCauses` what in a log accounts for each failure, and `ReleaseAnswers` which answers are a
  reason to fail and which hold a pass up. Safety and progress are both about the answers: no outcome without its
  answers, and no answer without its outcome. `ReleaseDecoding` says of the decoders, on the members of an answer, what
  they take and what they refuse; `ReleaseRight` what answers are right for a release, and that those are enough.
- **Hashline edits** (`src/hashline/`, modules `Hashline*`, `Sorting`). Edits carry line numbers of the original file
  and are spliced bottom up into a changing buffer that is no longer validated. `HashlineRender` defines what all edits
  mean at once, in original coordinates, and the splicing is proved equal to it. `HashlineSplices` says by slices of the
  buffer what one operation does, `HashlineReading` how an edit is read, ordered and told from another, and
  `HashlinePatterns` what the patterns for references and pasted prefixes match. Beside them: references and prefixes
  printed and read back, the unified diff, and chunked streaming against printing in one go.
- **Layered configuration** (`src/config/`, modules `Config*`, `Tolerant*`, `Profile*`). The merge, what it holds at
  every path (`ConfigPaths`) and when it associates; the loop that deletes subtrees until an arbitrary schema accepts an
  arbitrary merge of the layers, with its index lists, and which paths the tree of issues names (`TolerantIssues`); and
  agents that take their models from other profiles' agents along a chain, with what each entry requires, member by
  member (`ProfileRequirements`).
- **JSONC patching** (`src/config/jsonc-patch.ts`, modules `Jsonc*`). Two hand-written scanners that must agree, what
  they find by the positions of tokens and brackets (`JsoncScan`), and the put and get laws of replacing a top-level
  value in place.
- **Session guards** (`src/permissions/index.ts`, modules `Session*`). The read tokens and the subagent depths of
  sessions, as a state machine whose state is a function of everything that happened; `SessionHistory` says of that
  function what it gives by the events alone.

`Wrappers`, `Text` and `JsonValues` hold what the others share. Loops and objects that change are methods and classes
here as well; each is proved against a function or a predicate on its inputs, and the lemmas are about those. Where a
method and what it is proved against call the same small function, a lemma whose name ends in `Iff` or `Is` says what
that function gives in other terms: members, slices, positions or single characters.

## What the proofs brought up

- References are validated once, before any edit is applied. In every batch what each finds later is its line, unless
  an earlier edit was inserted before that very line or replaced it (`HashlineOrder.ReferenceFindsItsLine`). Where no
  replaced line is replaced, anchored at or enclosed by another edit, what it finds is known exactly: the first line of
  the text inserted there last, with its line further down, or its line if nothing was (`ReferencesStayIff`). So a
  second insertion before one line takes inserted text for its anchor, and loses its own last line exactly where that
  repeats it (`InsertionLosesItsLastLineIff`, with `SecondBeforeReadsTheFirst` as the smallest input). The order
  insertions at one anchor come out in is fixed, as `HashlineRender.Block` and `Trailer` give it.
- In other batches a line an edit is inserted at may be gone from the buffer. Then inserting after it fails, and so does
  inserting more than one line before it; a single line is inserted without looking, at the end of the buffer
  (`HashlineOrder.InsertionAtALineThatIsGone`). So a line put before a line that was replaced can come out behind the
  replacement (`PrependEndsUpBehind`).
- `deepMerge` does not associate on all inputs. It does exactly when no value of another kind stands between two that
  would merge, or the last of them has all that the first would add: its keys, and so on under each, or its strings at
  the beginning (`ConfigMerge.AssociatesIff` and `Absorbed`, with `NullSeparates` as the smallest input where it
  fails).
- A discarded value is said to behave as if its layer had omitted it. A layer that was cleared altogether does so, with
  one exception: the only profile layer, where the last base layer with a value is something other than an object
  (`ConfigMerge.ClearedLayerIsOmittedIff`, and `OnlyProfileLayerEmpties` for such an input).
- Put, then get holds for strings under every key. For a number or a boolean it holds exactly when the text right
  after the old value ends an unquoted value (`JsoncPatch.PutGetPlainIff`). That is always so after an unquoted value,
  but not after a string with as much as a blank between its closing quote and the comma, brace, line end or comment:
  the region then found is the value followed by all that stands before the end (`PlainIsFound`, `BlankRunsOn`), and a
  second put takes that with it (`PutPutPlainIff`).

## Model

| member | source | states |
|---|---|---|
| `ReleaseCompletion.CheckReleaseCompletion` | scripts/release-completion/remote.ts:43-261 | For every remote and clock, over the states before and after every pass: what is bound stays bound, a surface that failed in any pass is failed on the receipt and the outcome is FAILED, one that passed is proven or failed ever after, but for an identity whose last peel could not be made in time; and the loop only ever sleeps right after it peeled the tag again. FAILED exactly when an error is on record; every error goes back to an answer, every answer that is a reason to fail left an error, and every mark of where the tag led ends a whole peel. COMPLETED only for one head, run and attempt with everything proven for them, the tag re-peeled last, and the run the given one or the only one a complete search showed. UNRESOLVED only after a clock reading that forbids another poll or an incomplete discovery page. With no error and nothing to hold it up a check completes in its first pass; with a clock that advances it takes at most ceil(deadline/interval)+1 passes. A check that polls, on whose questions every answer is right for one release of the target, completes in its first pass |
| `ReleaseCompletion.OptionsIff` | scripts/release-completion/remote.ts:43-71 | Options are taken exactly if the target and the repository are read, and the time, the deadline, the interval, their sum and a given run are numbers JavaScript represents exactly and, all but the times, positive; each refusal is told apart |
| `ReleaseCompletion.RightAnswersAreEnough` | scripts/release-completion/remote.ts:92-260 | Where every question was answered, and every answer is right for one release, no error is on record and nothing holds the check up |
| `ReleaseRight.NoCause` | scripts/release-completion/receipt.ts:59-67 | Answers that are right for one release are the cause of no error; what is right is said of their members alone |
| `ReleaseCompletion.RunChecker` | scripts/release-completion/remote.ts:92-260 | The same over the polling loop itself, from a fresh receipt |
| `ReleaseCompletion.SetLaneSkippedSurfaces` | scripts/release-completion/receipt.ts:189-201 | Exactly the registry surfaces, and on the LSP lane the pinned release, are skipped |
| `ReleaseCompletion.Concludes` | scripts/release-completion/receipt.ts:157-163 | In a settled state errors and failed surfaces go together, unresolved ones have no time left or an incomplete page, and proven ones certify the release |
| `ReleaseChecker.Checker.Poll` | scripts/release-completion/remote.ts:92-260 | One pass keeps the invariant of the loop or ends in a settled state; nothing bound, failed or passed is withdrawn; every answer was heeded; it asks for another pass only asleep right after peeling the tag again; and it ends the check with everything proven, or an error or an answer of this very pass held it up |
| `ReleaseChecker.Checker.SleepUntilNextPoll` | scripts/release-completion/remote.ts:34-41 | Reads the clock exactly once and then sleeps, for the interval or what is left, exactly if the reading is valid and before the deadline |
| `ReleaseChecker.Checker.RetryOrFinalize` | scripts/release-completion/remote.ts:82-90 | Asks for another poll only after a polling interval, or the rest of the time, has passed, and with a head bound only right after peeling the tag again; otherwise ends settled |
| `ReleaseChecker.Checker.EnsureBoundTagUnchanged` | scripts/release-completion/github-identity.ts:243-261 | Same means the log ends with a whole peel to the bound head; retry means a peel that was answered so; a tag that moved or broke is failed on record. A peel without its mark, or a mark without its peel, breaks the invariant |
| `ReleaseChecker.Checker.BindHead` | scripts/release-completion/remote.ts:94-106 | Goes on only with a head; otherwise ends settled or asks for another poll, held up by an answer |
| `ReleaseChecker.Checker.DiscoverRun` | scripts/release-completion/remote.ts:108-146 | Goes on only with a run; every other answer retries or ends the check, held up by that answer |
| `ReleaseChecker.Checker.SelectDiscovered` | scripts/release-completion/remote.ts:122-146 | Goes on only with a head and the one run the page shows; any other page ends the check settled or asks for another poll |
| `ReleaseChecker.Checker.BindIdentity` | scripts/release-completion/remote.ts:148-179 | Goes on only with a bound identity and no failure but of identity or workflow; a workflow left unresolved was answered as not completed |
| `ReleaseChecker.Checker.BindTo` | scripts/release-completion/remote.ts:164-178 | Binds exactly if the decoder takes the answer for this release's run and attempt; otherwise ends with a settled failure |
| `ReleaseChecker.Checker.TakeRun` | scripts/release-completion/remote.ts:170-178 | The event and attempt of the run become the fixed ones where none were, and the identity passes |
| `ReleaseChecker.Checker.RecordWorkflowStatus` | scripts/release-completion/github-identity.ts:157-170 | Not completed: marked for retry and nothing else; completed without success: failed with its error; completed with success: passed and unmarked |
| `ReleaseChecker.Checker.RefreshWorkflow` | scripts/release-completion/remote.ts:186-206 | Asks once about the bound run; the errors recorded are exactly those the answer calls for, and the workflow passes exactly on a completed, successful run of the bound attempt |
| `ReleaseChecker.Checker.CheckJobs` | scripts/release-completion/remote.ts:219-237 | Asks once for the jobs of the bound attempt: they pass exactly on a complete list that matches the lane, stay unresolved exactly on retry, and fail otherwise |
| `ReleaseChecker.Checker.ObserveReleaseProof` | scripts/release-completion/github-release.ts:79-200 | What is left unproven without a failure is marked for retry, and an answer of this pass held it up; no other surface changes |
| `ReleaseChecker.Checker.JudgeRelease` | scripts/release-completion/github-release.ts:101-123 | The release passes exactly on an answer with the tag, no draft, and the expected assets; anything else is an error on record |
| `ReleaseChecker.Checker.Download` | scripts/release-completion/github-release.ts:160-178 | Bytes are handed on only when an asset of the release was fetched whole; otherwise the fetch failed on record or is to be made again |
| `ReleaseChecker.Checker.JudgeManifest` | scripts/release-completion/github-release.ts:149-156 | Assets and checksums pass only on a manifest that covers exactly the payloads |
| `ReleaseChecker.Checker.JudgePayload` | scripts/release-completion/github-release.ts:179-183 | A payload is proven exactly if it has the digest the manifest gives it; otherwise that failure, and nothing else, is recorded |
| `ReleaseChecker.Checker.ObservePayloads` | scripts/release-completion/github-release.ts:158-200 | What stays unproven is failed or marked for retry; under the invariant assets and checksums pass only together, with every payload's size and digest in evidence |
| `ReleaseChecker.Checker.ObservePinnedLspRelease` | scripts/release-completion/registries.ts:14-47 | The pinned release is asked for only while unresolved, and is never left unproven without a mark and an answer that held it up |
| `ReleaseChecker.Checker.JudgePinned` | scripts/release-completion/registries.ts:36-46 | Passes exactly on its own tag and no draft; otherwise records exactly the code of the first thing wrong |
| `ReleaseChecker.Checker.ObservePostWorkflow` | scripts/release-completion/remote.ts:181-184 | With no failure, what is unresolved after the workflow is marked for retry, and held up by an answer of this pass |
| `ReleaseProtocol.NothingLeftUnmarked` | scripts/release-completion/remote.ts:255 | The early end with an empty retryable set is never taken: without a failure everything is proven or something is in that set |
| `ReleaseProtocol.FailureIsFinal` | scripts/release-completion/receipt.ts:59-67 | Over a whole run: a surface that failed in any pass has failed at the end, and the outcome is FAILED |
| `ReleaseProtocol.RunAdvances` | scripts/release-completion/remote.ts:92-260 | Between any two states of a run nothing bound, failed or recorded is withdrawn |
| `ReleaseProtocol.PassIsKept` | scripts/release-completion/remote.ts:92-260 | Over a whole run what passed is proven or failed in every later state; only the identity may be left unresolved, at the end, when the last peel of a release proven in all else was answered with retry and no time is left |
| `ReleaseProtocol.UnhinderedCompletes` | scripts/release-completion/remote.ts:92-260 | A run without an error and without an answer that holds it up is one pass long and ends with everything proven |
| `ReleaseProtocol.HeedKept` | scripts/release-completion/remote.ts:92-260 | Answers that were heeded stay so as the log grows and more is found out |
| `ReleaseAnswers.FineIsKept` | scripts/release-completion/remote.ts:92-260 | An answer that is no reason to fail never becomes one |
| `ReleaseProtocol.FailureKeeps` | scripts/release-completion/receipt.ts:59-67 | Recording a failure that has its cause keeps a bound state sound, so polling may go on after an identity failure |
| `ReleaseProtocol.StepsCompose` | scripts/release-completion/remote.ts:92-260 | What single steps keep, any sequence of them keeps |
| `ReleaseProtocol.LogGrows` | scripts/release-completion/remote.ts:92-260 | Every proof and every cause found so far survives later questions about the same identity, as long as every peel has its mark |
| `ReleaseProtocol.Completes` | scripts/release-completion/remote.ts:247-249 | All surfaces proven and the tag still at the head certify the release |
| `ReleaseProtocol.GivesUp` | scripts/release-completion/receipt.ts:69-71 | Leaving a surface unresolved is sound only with no further poll; a proven identity may be demoted only after a last peel answered with retry |
| `ReleaseProtocol.IncompleteEnds` | scripts/release-completion/remote.ts:123-126 | An incomplete discovery page ends the check before anything is bound |
| `ReleaseCauses.CauseIsKept` | scripts/release-completion/receipt.ts:59-67 | The answer that accounts for a recorded failure keeps accounting for it as the log grows and more of the identity is found out |
| `ReleaseReceipt.Receipt.AddFailure` | scripts/release-completion/receipt.ts:59-67 | Sets the surface failed and appends the error |
| `ReleaseReceipt.Receipt.MarkRetryable` | scripts/release-completion/receipt.ts:165-176 | Leaves failed and proven surfaces alone, marks all others |
| `ReleaseReceipt.Receipt.FinalizeReceipt` | scripts/release-completion/receipt.ts:129-163 | The lists are sorted and collapsed; FAILED exactly with a failed surface, or all proven and no identity; UNRESOLVED exactly with none failed and one unresolved; COMPLETED exactly with all proven and an identity |
| `ReleaseReceipt.FinalListsAreSorted` | scripts/release-completion/receipt.ts:129-155 | Finalized jobs and errors are the recorded ones, each once, in order |
| `ReleaseReceipt.ErrorsBeforeIff` | scripts/release-completion/receipt.ts:148-155 | Errors are listed by surface, in the order the surfaces are given in, and then by code |
| `ReleaseReceipt.RowsBeforeIff` | scripts/release-completion/receipt.ts:135-139 | Asset rows are listed by name, size, downloaded size and digest, where none counts as the least |
| `ReleaseReceipt.JobsBeforeIff` | scripts/release-completion/receipt.ts:130-134 | Jobs are listed by name and then by conclusion |
| `Text.OrdinalIff` | scripts/release-completion/receipt.ts:25-27 | One string comes before another exactly if it begins the other or has the lesser character where they first differ |
| `ReleaseReceipt.RowsStay` | scripts/release-completion/receipt.ts:135-139 | Asset rows in the order of their names are left as they are |
| `ReleaseCompletion.FinalErrorsAreCaused` | scripts/release-completion/receipt.ts:148-155 | Finalizing the errors keeps every cause, and loses no failure |
| `Sorting.DeduplicateSorted` | scripts/release-completion/receipt.ts:115-127 | The loop drops exactly the elements that follow their like in the sorted list |
| `Sorting.DeduplicatedIsSorted` | scripts/release-completion/receipt.ts:115-127 | Under an order without ties: sorted, the same elements, each once, and doing it again changes nothing |
| `Sorting.DeduplicatedIsCanonical` | scripts/release-completion/receipt.ts:115-127 | The result depends on nothing but which elements there are |
| `ReleaseReceipt.FinalOutcome` | scripts/release-completion/receipt.ts:157-163 | COMPLETED exactly when all surfaces are proven and the identity is known; UNRESOLVED exactly when none failed and one is unresolved |
| `ReleaseReceipt.EvidenceIsKept` | scripts/release-completion/github-release.ts:79-200 | Evidence in a log is evidence in every longer log |
| `ReleaseIdentity.PeelTag` | scripts/release-completion/github-identity.ts:61-90 | Follows a chain of distinct tag objects to its end and terminates on every remote; the result is what the chain ends in |
| `ReleaseIdentity.PeelAccounted` | scripts/release-completion/github-identity.ts:61-90 | A whole peel and its mark leave every mark the end of a peel and every question about the tag inside one |
| `ReleaseIdentity.DecodeDiscovery` | scripts/release-completion/github-identity.ts:172-189 | Found means exactly one matching run on a complete page; the other results are exact as well |
| `ReleaseDecoding.DiscoveryIff` | scripts/release-completion/github-identity.ts:172-189 | On the members of the answer: found is exactly the only run of the tag and head on a page that holds all it announces, not found exactly such a page without one, ambiguous exactly one with several, incomplete exactly a page that holds less or more, or announces more than a hundred |
| `ReleaseDecoding.RunIff` | scripts/release-completion/github-identity.ts:92-107 | An object with these members, the id and the attempt from one up to the greatest exact integer and the head forty lower-case hexadecimal digits, decodes to exactly that run, and nothing else does |
| `ReleaseDecoding.NoRunIff` | scripts/release-completion/github-identity.ts:92-107 | An answer decodes to no run exactly if it has the members of none |
| `ReleaseDecoding.BoundIff` | scripts/release-completion/github-identity.ts:131-155 | An answer is bound exactly if its members are those of this run of the release workflow on the tag and head, pushed or dispatched, in the expected event and attempt; another attempt and anything else are told apart |
| `ReleaseDecoding.TagObjectIff` | scripts/release-completion/github-identity.ts:51-59 | An answer names an object exactly by the type and the commit name among its members |
| `ReleaseDecoding.JobsIff` | scripts/release-completion/github-identity.ts:191-212 | An answer lists jobs exactly if it holds all entries it announces, and each has a name and a conclusion, in their order |
| `ReleaseIdentity.DecodeJobs` | scripts/release-completion/github-identity.ts:191-241 | Succeeds exactly on a complete list that matches the lane, and the code of a failure says whether the page was incomplete |
| `ReleaseIdentity.MatchesTable` | scripts/release-completion/github-identity.ts:231-240 | True exactly when every expected job is there with its conclusion and no other job is, but skipped native ones on the main lane |
| `ReleaseIdentity.BoundIsTheRelease` | scripts/release-completion/github-identity.ts:131-155 | A run is bound only if it is this release's, with the expected event and attempt |
| `ReleaseProof.ParseChecksums` | scripts/release-completion/checksums.ts:21-58 | The digests are what the manifest says and cover exactly the payloads; each error is reported exactly when it applies |
| `ReleaseProof.ReadManifest` | scripts/release-completion/checksums.ts:21-47 | Reads a text exactly when it is a manifest |
| `ReleaseProof.ManifestReadsBack` | scripts/release-completion/checksums.ts:4-47 | A printed manifest reads back as its rows |
| `ReleaseProof.ManifestIsUnambiguous` | scripts/release-completion/checksums.ts:21-58 | A text says at most one set of digests |
| `ReleaseProof.DecodeReleaseAssets` | scripts/release-completion/github-release.ts:47-77 | Succeeds exactly on a list of readable assets with distinct names that are the expected ones; the code of a failure is that of the first wrong entry, a repeated name before anything else, or else that of a wrong set |
| `ReleaseDecoding.AssetIff` | scripts/release-completion/github-release.ts:47-72 | An object with a name, a size of at least one and an https URL reads as exactly that asset, and nothing else does |
| `ReleaseDecoding.AssetErrorIff` | scripts/release-completion/github-release.ts:55-66 | An entry that is refused is refused as empty exactly if it has a name and the size zero |
| `ReleaseDecoding.ReleaseIff` | scripts/release-completion/github-release.ts:101-123 | Apart from its assets an answer is right exactly with the tag, a draft mark that is false, a prerelease mark and a list; a draft, another tag and anything else are told apart |
| `ReleaseDecoding.PinnedIff` | scripts/release-completion/registries.ts:36-46 | The pinned release is right exactly with its tag and a draft mark that is false; a draft and anything else are told apart |
| `ReleaseProof.RefusedAt` | scripts/release-completion/github-release.ts:49-72 | A list with a wrong entry is no list of assets, and the first wrong entry decides the code |
| `ReleaseProof.AssetListIsUnique` | scripts/release-completion/github-release.ts:47-77 | A list has one reading as assets by name |
| `ReleaseContracts.MainTarget` | scripts/release-completion/target.ts:44-51 | Tag, exactly three different assets, the manifest and two packages of the version, and exactly five different jobs, each with its conclusion, the LSP packages skipped; the pinned release is another one |
| `ReleaseContracts.MainNamesAre` | scripts/release-completion/github-identity.ts:213-221 | The assets and the jobs of a main-lane version, each job with its conclusion, letter by letter |
| `ReleaseContracts.LspTarget` | scripts/release-completion/target.ts:53-57 | Tag, exactly seventeen different assets, the manifest and for each of eight platforms its binary and its package of the version, and exactly thirteen different jobs, one for each platform among them, each with its conclusion |
| `ReleaseContracts.PackagesAre` | scripts/release-completion/target.ts:53-57 | The packages of an LSP-lane version: for two processors on two systems, and on a third one with two libraries |
| `ReleaseContracts.NativeJobsAre` | scripts/release-completion/github-identity.ts:222-229 | The jobs that build them, each with its name |
| `HashlineEdits.ApplyHashlineEdits` | src/hashline/edit-operations.ts:28-99 | Succeeds exactly when every reference holds, no two ranges meet and every splice can be made, and gives the lines spliced in the order of the references; each of these failures has its own error. With separated edits: succeeds exactly when every reference holds and every edit can be applied to the original, and then gives all edits taken at once in original coordinates. Counts are exact |
| `HashlineSplices.InsertionAfterLosesItsFirstLineIff` | src/hashline/edit-operation-primitives.ts:71-86 | On the buffer: text inserted after a line comes out without its first line exactly if that repeats the line up to white space, and otherwise whole; it is refused exactly if nothing of it is left |
| `HashlineSplices.InsertionBeforeLosesItsLastLineIff` | src/hashline/edit-operation-primitives.ts:88-103 | The same for an insertion before a line and its last line, which is only lost if there is another |
| `HashlineSplices.UnanchoredInsertion` | src/hashline/edit-operation-primitives.ts:105-125 | Text without an anchor goes to the end or to the start, or takes the place of a single empty line |
| `HashlineSplices.LineReplaced` | src/hashline/edit-operation-primitives.ts:19-36 | One line is cut out of the buffer, and what the autocorrection makes of the text is put there, its first line indented like the line that was there exactly if it is not empty, not indented and not the same up to white space around it |
| `HashlineSplices.RangeReplaced` | src/hashline/edit-operation-primitives.ts:38-69 | The same for a range, with the text that repeats its neighbours cut off where it is longer than the range; a range that is upside down is refused |
| `HashlineText.EqualIff` | src/hashline/edit-text-normalization.ts:4-7 | Two lines are equal up to white space exactly if they hold the same other characters in the same order |
| `HashlinePatterns.ParseIff` | src/hashline/validation.ts:22-65 | A reference is read as the first digits, `#` and hash that stand in it once white space around it, a marker, white space around its first `#` and what follows a bar are taken away, and is none if nothing stands there |
| `HashlinePatterns.HashPrefixIff` | src/hashline/edit-text-normalization.ts:1 | The pattern of printed lines matches exactly white space, perhaps a marker, white space, a number, `#` and a hash with white space around it, and a bar; what follows is left |
| `HashlinePatterns.StrippedIff` | src/hashline/edit-text-normalization.ts:15-43 | The printed prefix is taken from every line that has it if half of the lines that are not empty do, else a single `+` if half have that, else nothing is taken |
| `HashlinePatterns.HashTextIs` | src/hashline/constants.ts:3-7 | The hash of a line is the two digits of its value in base 16, in the letters of the dictionary |
| `HashlinePatterns.SpaceIff` | src/hashline/edit-text-normalization.ts:4-13 | White space is these twenty-five characters |
| `HashlineReading.RefHoldsIff` | src/hashline/validation.ts:18-20 | A reference holds exactly if it is read as a line of the file and that line's hash by the current or the older function |
| `HashlineReading.EditHoldsIff` | src/hashline/edit-ordering.ts:17-29 | An edit names exactly its anchors: both ends of a range, and none where the anchor is empty |
| `HashlineReading.ResolvedIs` | src/hashline/edit-operations.ts:56-92 | Which operation an edit is, and at which lines: a range from one reference to the other, one line, after or before a line, or an end of the file |
| `HashlineReading.TextIs` | src/hashline/edit-text-normalization.ts:45-50 | The text of an edit is its lines, or its text cut at its line ends, without the prefix that prevails |
| `HashlineReading.OrderIff` | src/hashline/edit-operations.ts:38-44 | Edits further down come first, those without a line last; on one line replacements, then what goes after it, then what goes before it |
| `HashlineReading.OrderableIff` | src/hashline/edit-ordering.ts:4-15 | An edit can be ordered exactly if the reference it is ordered by, the end of a range even if empty, can be read, or none is asked for |
| `HashlineReading.NoopsAre` | src/hashline/edit-operations.ts:56-92 | The count of edits without effect is that of the operations that leave the buffer as they find it |
| `HashlineReading.FileLinesIff` | src/hashline/edit-operations.ts:48 | The lines of a file are those that joined by line ends are its content, and none for an empty one |
| `HashlineOrder.BottomUpIsSimultaneous` | src/hashline/edit-operations.ts:37-92 | Sorted bottom up and spliced one by one, separated edits give the original with every effective text at its own coordinates, for any autocorrection and any number of insertions per anchor |
| `HashlineRender.SortedIsSimultaneous` | src/hashline/edit-operations.ts:56-92 | The same for an already sorted list, by one splice at a time |
| `HashlineOrder.SimultaneousOfSorted` | src/hashline/edit-operations.ts:39-44 | The meaning of separated edits does not depend on the sort |
| `HashlineOrder.ReferencesStayIff` | src/hashline/edit-operations.ts:50-92 | What a validated reference finds when its edit is applied, where no replaced line is replaced, anchored at or enclosed by another edit: from its place on, what was inserted before its line and then the line; nothing but the line exactly if nothing was inserted there, and otherwise the first line of the text inserted last stands in its place |
| `HashlineOrder.ReferenceFindsItsLine` | src/hashline/edit-operations.ts:50-92 | In every batch, overlapping or not: a reference finds its line unless an earlier edit was inserted before that line or replaced it |
| `HashlineOrder.PrefixStays` | src/hashline/edit-operations.ts:50-92 | In every batch what is above all edits so far stands as it stood |
| `HashlineOrder.InsertionAtALineThatIsGone` | src/hashline/edit-operation-primitives.ts:71-103 | At a line the buffer no longer has nothing can be inserted after; before it exactly a list of one line can, and it goes to the end |
| `HashlineOrder.PrependEndsUpBehind` | src/hashline/edit-text-normalization.ts:69-75 | The smallest such batch: a line put before a line that was replaced comes out behind the replacement |
| `HashlineOrder.InsertionLosesItsLastLineIff` | src/hashline/edit-text-normalization.ts:69-75 | An insertion before a line goes on top of what was inserted there before, and loses its own last line exactly if it has more and that one repeats the line standing there, be it inserted text |
| `HashlineOrder.BlockTop` | src/hashline/edit-operations.ts:50-92 | What stands where a line stood is the line, or the first line of the text inserted last |
| `HashlineOrder.SecondBeforeReadsTheFirst` | src/hashline/edit-text-normalization.ts:69-75 | The smallest such loss: two insertions before one line, the second of which keeps its last line only without the first |
| `HashlineRender.UntouchedPrefix` | src/hashline/edit-operations.ts:56-92 | Lines no edit touches stay as they are |
| `HashlineEdits.DedupeEdits` | src/hashline/edit-deduplication.ts:27-43 | Keeps the first edit of every key and counts the rest |
| `HashlineEdits.DedupeKeepsKeys` | src/hashline/edit-deduplication.ts:14-43 | No two kept edits share a key, and no key is lost |
| `HashlineReading.KeptAre` | src/hashline/edit-deduplication.ts:27-43 | What is kept are the edits that no earlier one has the key of, in their order |
| `HashlineReading.KeyIff` | src/hashline/edit-deduplication.ts:5-25 | Edits whose references can be read have one key exactly if they are of one kind, at the same references, with the same text |
| `HashlineEdits.ValidateLineRefs` | src/hashline/validation.ts:159-178 | No error exactly when every reference parses, is in range and matches a hash of its line; otherwise the error of the first reference that does not parse or is out of range, and a changed line only if there is none |
| `HashlineEdits.DetectOverlappingRanges` | src/hashline/edit-ordering.ts:31-56 | True exactly when two neighbours, sorted by where they start, meet; which is when two ranges overlap, provided none is upside down |
| `HashlineReading.MeetIff` | src/hashline/edit-ordering.ts:43-54 | Ranges meet exactly if, in order of their starts and then of their ends, one starts no further down than the one before it ends, upside down or not |
| `HashlineReading.RangesAre` | src/hashline/edit-ordering.ts:31-42 | The ranges are those of the edits that replace one, in order, from the line of the first reference to that of the second |
| `HashlineEdits.DisjointOfSorted` | src/hashline/edit-ordering.ts:45-53 | Whether ranges are pairwise disjoint does not depend on their order |
| `HashlineEdits.SortedReferences` | src/hashline/edit-operations.ts:50-51 | Validating the sorted list is validating the given one |
| `Sorting.SortSorts` | src/hashline/edit-operations.ts:39-44 | The sort orders, and loses and invents nothing |
| `Sorting.SortIsStable` | src/hashline/edit-operations.ts:39-44 | Elements of one rank keep their order |
| `HashlineRefs.ParseOfPrinted` | src/hashline/validation.ts:22-65 | A printed reference, or a whole pasted line with one of the printed markers, parses to its number and hash |
| `HashlineRefs.HashText` | src/hashline/hash-computation.ts:7-17 | A hash is two letters of the dictionary |
| `Text.NoLeadingZero` | src/hashline/hash-computation.ts:23-26 | A printed number has no digit in front that could be left out |
| `HashlineText.StripLinePrefixes` | src/hashline/edit-text-normalization.ts:15-43 | The counting loop strips the prefix that prevails, or nothing |
| `HashlineText.StripOfPrinted` | src/hashline/diff-utils.ts:5-17 | Printing a text with its hashes and stripping it again gives back its lines, even when they look prefixed |
| `HashlineText.PrintedJoin` | src/hashline/diff-utils.ts:5-17 | The text printed is the lines, each with its number and hash, joined by line ends, with nothing for an empty last one |
| `HashlineText.FormattedLine` | src/hashline/hash-computation.ts:23-26 | A printed line is not empty, holds no line end, and gives its line back |
| `HashlineDiff.GenerateUnifiedDiff` | src/hashline/diff-utils.ts:19-55 | No hunk exactly for equal texts. Otherwise the hunk is what lies between the longest common beginning and the longest common end after it, the old lines before the new ones, with three lines around it where there are as many; its header names where both sides stand and how long they are, applying it to the old lines gives the new ones, and the text is the two file lines, that header and the hunk |
| `HashlineDiff.OneDiff` | src/hashline/diff-utils.ts:19-55 | No other text is such a diff |
| `HashlineDiff.ContentLinesIff` | src/hashline/diff-utils.ts:57-60 | The lines of a text are the pieces that line ends end, and what is left after the last one if it is not empty |
| `HashlineDiff.DiffIsUnambiguous` | src/hashline/diff-utils.ts:49-54 | A printed diff can be read in one way only: the path, the four numbers and the lines |
| `HashlineDiff.HunkIsExact` | src/hashline/diff-utils.ts:31-54 | Any hunk built from equal surroundings is exact |
| `HashlineDiff.WalkMarked` | src/hashline/diff-utils.ts:31-42 | Applying a run of marked lines checks context and deletions and keeps what it should |
| `HashlineDiff.FirstChangedLine` | src/hashline/diff-utils.ts:62-68 | The common prefix, as long as it goes |
| `HashlineDiff.LastChangedLine` | src/hashline/diff-utils.ts:70-82 | The common suffix after the first change |
| `HashlineDiff.CountLineDiffs` | src/hashline/diff-utils.ts:84-115 | Additions and deletions are the multiset differences and account for the difference in length |
| `HashlineDiff.CountSurplus` | src/hashline/diff-utils.ts:98-104 | The sum over distinct lines is the size of a multiset difference |
| `HashlineStream.StreamHashLinesFromUtf8` | src/hashline/hash-computation.ts:62-123 | However the decoded text is cut, its formatted lines are yielded in greedy chunks |
| `HashlineStream.StreamHashLinesFromLines` | src/hashline/hash-computation.ts:125-155 | The same for lines |
| `HashlineStream.LineStream.ConsumeText` | src/hashline/hash-computation.ts:84-103 | Pushes every completed line and keeps the unfinished one |
| `HashlineStream.ChunkFormatter.Push` | src/hashline/hashline-chunk-formatter.ts:24-46 | The line goes last, all chunks keep the limits, and none could have taken the line after it |
| `HashlineStream.LengthIsOfBytes` | src/hashline/hashline-chunk-formatter.ts:27 | The length of a line is the number of bytes it is encoded in |
| `HashlineStream.EncodedIsRead` | src/hashline/hashline-chunk-formatter.ts:27 | The bytes of a character by section 3 of RFC 3629 are as many as counted, and read back as the character |
| `HashlineStream.ChunkFormatter.Flush` | src/hashline/hashline-chunk-formatter.ts:16-22 | Hands out what is pending, once |
| `HashlineStream.StreamAgrees` | src/hashline/hash-computation.ts:28-32 | The yielded chunks joined by line ends are what printing in one go gives; none is empty, each keeps both limits unless it is one line, and none could have taken the next line |
| `HashlineStream.ChunksAreUnique` | src/hashline/hashline-chunk-formatter.ts:11-52 | The limits leave one greedy chunking, so the cut of the input never shows |
| `ConfigMerge.MergeSanitized` | src/config/merge.ts:78-101 | The key loops build the merge |
| `ConfigMerge.Merged` | src/config/merge.ts:78-101 | A value results exactly when there is one to merge, and safe values merge to a safe one |
| `ConfigMerge.Sanitize` | src/config/merge.ts:67-76 | No unsafe key at any depth, and safe values are kept as they are |
| `ConfigMerge.DeepMerge` | src/config/merge.ts:114-126 | No unsafe key survives a merge at any depth |
| `ConfigMerge.DeepMergeOfObjects` | src/config/merge.ts:93-99 | Each safe key of two merged objects holds the merge of its two values |
| `ConfigPaths.MergedWhereBothReach` | src/config/merge.ts:78-101 | At the end of a path along which both values have objects stands the second one's value if there is one and else the first one's, but two objects become one with the keys of both, and two lists at one of the seven accumulating keys unite unless a profile is laid over |
| `ConfigPaths.MergedBelow` | src/config/merge.ts:78-101 | Below a place where one of two values has no object everything comes from the second if it has anything there, and else from the first |
| `ConfigPaths.UnionIs` | src/config/merge.ts:87-90 | A union lists the printed elements of both lists as strings, each where it comes first |
| `ConfigPaths.SanitizedAtPath` | src/config/merge.ts:67-76 | Sanitizing leaves nothing at paths through the three unsafe names, and at every other path what was there, sanitized |
| `ConfigPaths.ShapeIsKept` | src/config/merge.ts:67-76 | Sanitizing keeps scalars, the lengths of lists, and all keys of an object but its unsafe ones |
| `ConfigMerge.UnionIsAssociative` | src/config/merge.ts:87-90 | Ordered unions without duplicates associate |
| `ConfigMerge.AssociatesIff` | src/config/merge.ts:78-101 | Merging three values associates exactly when nothing of another kind stands between two that would merge, or the last has absorbed the first: its keys, each in turn, or its strings, by which it begins |
| `ConfigMerge.AbsorbedIff` | src/config/merge.ts:78-101 | Merging onto a value leaves it as it is exactly if it has absorbed the other, said on keys and elements |
| `ConfigMerge.UnionAbsorbs` | src/config/merge.ts:87-90 | A union adds nothing to its second list exactly if that lists distinct strings beginning with those of the first |
| `ConfigMerge.DeepMergeAssociatesIff` | src/config/merge.ts:103-126 | The same for the exported merge |
| `ConfigMerge.SameKindsAssociate` | src/config/merge.ts:103-126 | On trees of the same kinds at shared paths deep merges associate |
| `ConfigMerge.NullSeparates` | src/config/merge.ts:93-100 | A null between two objects is an input on which they do not |
| `ConfigMerge.PrepareAgentOverlayBase` | src/config/merge.ts:51-65 | The loop cleans exactly the base entries an alias-only overlay entry replaces |
| `ConfigMerge.OverlaidAgentField` | src/config/merge.ts:39-49 | Under an alias-only overlay entry exactly the six requirement fields of the base are dropped; every other field is merged |
| `ConfigPaths.OverlaidMember` | src/config/merge.ts:23-49 | The same on the literal members: an overlay entry with an alias and no model, models, fallbacks or requirement of its own takes those six names from the base entry, and no other |
| `ConfigPaths.OverlaidConfiguration` | src/config/merge.ts:129-151 | Under an overlay the agents of two configurations are laid over as agents if both have some; every other member is merged |
| `ConfigPaths.TwoLayers` | src/config/load.ts:704-717 | Two base layers merge, a profile layer is laid over a base layer or an earlier profile layer, whichever of them comes first in the list |
| `ConfigMerge.MergeConfigLayers` | src/config/load.ts:704-717 | The two accumulators give what the base layers and the profile layers give, each in their order |
| `ConfigMerge.InterleavingIsIrrelevant` | src/config/load.ts:704-717 | Exchanging a neighbouring base and profile layer changes nothing |
| `ConfigMerge.ClearedLayerIsOmittedIff` | src/config/tolerant-parse.ts:58-62 | A cleared layer merges as if it were left out, except exactly when it is the only profile layer and the last base layer with a value is no object |
| `ConfigMerge.OnlyProfileLayerEmpties` | src/config/load.ts:704-717 | The exception at its smallest: a cleared profile layer over one string |
| `ConfigMerge.BaseIsObjectIff` | src/config/load.ts:704-717 | Base layers merge to an object exactly if the last one with a value is one, or none has a value |
| `ConfigTrees.CloneIsWhole` | src/config/tolerant-parse.ts:105-113 | A clone is the whole input, every element at its own index |
| `ConfigTrees.OriginalPathAtValue` | src/config/tolerant-parse.ts:332-349 | The loop gives the path with every index replaced by the index list's entry |
| `ConfigTrees.OriginalPathIsTrue` | src/config/tolerant-parse.ts:332-349 | The node at a surviving path is what is left of the input's node at the reported path |
| `ConfigTrees.ParentAtPath` | src/config/tolerant-parse.ts:243-271 | Finds the parent exactly when there is something at the end of the path |
| `ConfigTrees.DiscardKeepsPruned` | src/config/tolerant-parse.ts:229-241 | After any discard the tree is still the input with subtrees deleted, and every index list increasing and true |
| `ConfigTrees.DiscardRemovesOneSubtree` | src/config/tolerant-parse.ts:229-241 | A discard removes exactly the nodes at and below the end of its path |
| `TolerantParse.TolerantParseLayers` | src/config/tolerant-parse.ts:63-99 | For every schema and merge: ends; on success the data is the parse of the merge of exactly the returned layers, which are reached by a run of rounds; on failure nothing the issues name is left; an accepted input is returned as it was; the reported keys are exactly those of the rounds in order, then the silently dropped ones in the order the walk meets them, each once, and exist in their layer's input |
| `TolerantParse.TolerantParse` | src/config/tolerant-parse.ts:38-56 | The same for one value: a run of rounds from its clone, the end it comes to, and exactly the keys reported on the way and met by the walk, in order; a value that is no object is not worked on |
| `TolerantParse.ValueRunPrunes` | src/config/tolerant-parse.ts:38-56 | On every run each value is the input with subtrees deleted, and there are no more rounds than nodes |
| `TolerantParse.RunPrunes` | src/config/tolerant-parse.ts:63-99 | On every run each layer only loses subtrees or is cleared, and there are no more rounds than nodes |
| `TolerantParse.RoundShrinks` | src/config/tolerant-parse.ts:75-90 | Every round leaves strictly fewer nodes |
| `TolerantParse.DiscardPrunes` | src/config/tolerant-parse.ts:115-162 | A discard keeps all layers prunings and removes one subtree of one layer |
| `TolerantParse.DiscardIssues` | src/config/tolerant-parse.ts:115-162 | Discards the chosen one: the first unknown key in order of length, else the first named path, in the highest layer that has it, else the first of the longest ancestors in the highest layer; fails exactly when there is none; reports exactly the unknown keys |
| `TolerantParse.ChosenIsOne` | src/config/tolerant-parse.ts:115-162 | Nothing is left to choice: at most one place in one layer is the chosen one |
| `TolerantParse.ChosenIsDeepest` | src/config/tolerant-parse.ts:115-162 | It is a deepest one of its kind |
| `TolerantIssues.IssuePathsIff` | src/config/tolerant-parse.ts:186-196 | The paths issues name are, in this order, the full paths of exactly those issues that are reached through unions, are no unknown keys, and have nothing but unknown keys below them |
| `TolerantIssues.NamedOutweighsShorter` | src/config/tolerant-parse.ts:115-162 | Where no unknown key leads to anything, a named path that does is no longer than what is discarded, which is named too |
| `TolerantIssues.UnknownPathsIff` | src/config/tolerant-parse.ts:198-211 | The unknown keys are, in this order, those of exactly the issues reached through the first viable branch of every union |
| `TolerantIssues.ViableIff` | src/config/tolerant-parse.ts:213-218 | A branch is viable exactly if one can choose a branch at every union below it and meet nothing but unknown keys |
| `TolerantParse.UnknownPathsNameKeys` | src/config/tolerant-parse.ts:198-218 | An unknown key is always a name inside what the issue is about |
| `TolerantParse.DiscardFirst` | src/config/tolerant-parse.ts:123-142 | The first path in order that leads to something, in its highest layer |
| `TolerantParse.FirstHitIsDeepest` | src/config/tolerant-parse.ts:122-136 | Sorting longest first makes it a deepest one |
| `TolerantParse.FindParent` | src/config/tolerant-parse.ts:144-160 | The longest ancestor that leads to something, in the highest layer among those, and of those the one found first |
| `TolerantParse.OneRound` | src/config/tolerant-parse.ts:75-90 | Discards, else clears the highest filled layer on a root issue, else stops with nothing left to do; reports exactly what the round reports |
| `TolerantParse.ClearHighestPriorityLayer` | src/config/tolerant-parse.ts:168-180 | Clears the highest layer that is not empty |
| `TolerantParse.ReportSilent` | src/config/tolerant-parse.ts:91-97 | Every silently dropped key is reported, in order, by its original path in the highest layer that has it, and nothing else is |
| `TolerantParse.CollectSilentUnknownKeys` | src/config/tolerant-parse.ts:283-310 | The recursive loops meet the keys element by element and member by member, in the order objects list their keys |
| `TolerantParse.WalkMeets` | src/config/tolerant-parse.ts:283-310 | The walk meets exactly the dropped keys, in whatever order objects list their keys |
| `TolerantParse.WalkMeetsOnce` | src/config/tolerant-parse.ts:283-310 | No key is met twice, array elements by their original indices |
| `TolerantParse.NothingDroppedFromItself` | src/config/tolerant-parse.ts:290 | Stopping where the output is the input itself changes nothing |
| `TolerantParse.SilentKeysExist` | src/config/tolerant-parse.ts:283-310 | A silently dropped key is a member of the input |
| `TolerantParse.DedupeUnknownKeys` | src/config/tolerant-parse.ts:322-330 | The first report of every key, in order |
| `ProfileAliases.QualifiedIff` | src/config/profile-aliases.ts:15-25 | A qualified alias is exactly a profile name, a colon and an agent name, and is read back as those |
| `ProfileRequirements.PointsIff` | src/config/profile-aliases.ts:15-25 | The same with the letters of names written out; an alias with a colon that is none of these is refused |
| `ProfileAliases.NormalizeDirectRequirement` | src/config/normalize.ts:97-127 | The fields and the chain loop give the entry's own requirement |
| `ProfileRequirements.RequirementIff` | src/config/normalize.ts:97-127 | On the members of the entry: with models the chain is exactly those, read one by one, and the reasoning and variant are its own, else those of a requirement beside them; with a requirement only, that one; else with a model the chain is the model and then the fallbacks, with fallbacks only those; and without any of these there is none. A reasoning of none is off |
| `ProfileRequirements.NothingElseRequires` | src/config/normalize.ts:97-100 | An entry that is no object requires nothing |
| `ProfileAliases.DirectIffSelects` | src/config/normalize.ts:97-127 | An entry has a requirement of its own exactly when the overlay merge takes it to select models |
| `ProfileAliases.Resolver.ProfileAgents` | src/config/profile-aliases.ts:79-103 | The cache never gives anything but the profile's view, and each fault is reported |
| `ProfileAliases.Resolver.Resolve` | src/config/profile-aliases.ts:108-140 | Terminates on every configuration, restores stack and membership, and resolves as the chain of agents says |
| `ProfileAliases.ResolvesIff` | src/config/profile-aliases.ts:108-140 | Resolution succeeds exactly when a chain leads to an agent with its own requirement, which it then gives with the intensities on the way |
| `ProfileAliases.CircularIff` | src/config/profile-aliases.ts:111-113 | The circular error occurs exactly when the chain meets one of its agents again |
| `ProfileAliases.FailsIff` | src/config/profile-aliases.ts:119-136 | Any other error is that of the agent the chain ends at, and names the whole chain |
| `ProfileRequirements.StepIff` | src/config/profile-aliases.ts:115-136 | What becomes of an agent, on the members of its entry: missing or false, it is not found; else its requirement, if it has one, ends the chain; else its alias leads to exactly one agent or is invalid, and without one there is no requirement |
| `ProfileRequirements.AgentsIff` | src/config/profile-aliases.ts:79-103 | A profile has agents, its own laid over the base ones, unless it is missing, invalid or no object, and these are told apart |
| `ProfileAliases.NearestIntensityWins` | src/config/normalize.ts:129-145 | The nearest entry on the chain that sets reasoning or variant decides both, and nothing else changes |
| `ProfileRequirements.IntensityIs` | src/config/normalize.ts:129-145 | The reasoning of an entry on the way takes the place of reasoning and variant, else its variant does, else nothing changes |
| `ProfileAliases.Materialize` | src/config/profile-aliases.ts:69-155 | Success gives every agent its outcome; an error is that of the first agent, in the order they are listed, that has one |
| `ProfileAliases.MaterializedIff` | src/config/profile-aliases.ts:142-154 | An agent is given a requirement exactly when its own alias is qualified and its chain leads to one; it is unchanged exactly when it has its own or no qualified alias |
| `ProfileRequirements.GivenModels` | src/config/profile-aliases.ts:142-154 | An agent that is given a requirement has the chain of models of the agent its aliases end at |
| `ProfileAliases.AliasOnlyIsFollowed` | src/config/profile-aliases.ts:97-100 | An overlay entry with only an alias leaves no direct requirement in the profile's view, so its alias is followed |
| `JsoncPatch.StripComments` | src/config/jsonc-patch.ts:20-56 | The index-driven loop strips exactly the comments |
| `JsoncPatch.FindTopLevelKey` | src/config/jsonc-patch.ts:158-220 | The index-driven scan finds the first key at depth one and its value region |
| `JsoncScan.LocateIff` | src/config/jsonc-patch.ts:158-220 | The key is located at the first token at which it stands, quoted, with blanks and a colon after it, and before which there is one more opening than closing bracket among the tokens; with where its value starts and ends; and nowhere exactly if there is no such token |
| `JsoncScan.CutsExist` | src/config/jsonc-patch.ts:158-220 | Every text can be cut into tokens in one way: line and block comments, strings up to a quote after an even number of backslashes, and single characters |
| `JsoncScan.StripPicks` | src/config/jsonc-patch.ts:20-56 | Stripping leaves exactly the characters that belong to no comment, in their order |
| `JsoncPatch.ScanScalarEnd` | src/config/jsonc-patch.ts:81-110 | The end of the value: its closing quote, or the first terminator |
| `JsoncPatch.ReplaceTopLevelScalar` | src/config/jsonc-patch.ts:112-130 | Replaces exactly the region, or refuses when the result does not parse |
| `JsoncPatch.PutGet` | src/config/jsonc-patch.ts:120-130 | For every key: after a string was put it is found in the same place, its region is the serialized string and reads back as the string, and nothing outside changed |
| `JsoncPatch.PutPut` | src/config/jsonc-patch.ts:120-130 | A second put erases a string |
| `JsoncPatch.PutGetPlainIff` | src/config/jsonc-patch.ts:81-110 | A number or boolean that was put is found again as it is exactly when what follows the region ends an unquoted value |
| `JsoncPatch.PutGetFlagIff` | src/config/jsonc-patch.ts:60-63 | The same for a boolean, which is put as the word for it |
| `JsoncPatch.PlainIsFound` | src/config/jsonc-patch.ts:81-110 | It is always found in its place, up to what ends an unquoted value: what stands in between is taken for part of it |
| `JsoncPatch.BlankRunsOn` | src/config/jsonc-patch.ts:81-110 | A blank after a replaced string is an input where it is found with that blank |
| `JsoncPatch.PutPutPlainIff` | src/config/jsonc-patch.ts:120-130 | A second put erases a number or boolean exactly under the same condition, and otherwise takes with it what stood before the end |
| `JsoncPatch.PlainCanBeReplaced` | src/config/jsonc-patch.ts:102-109 | It always does after an unquoted value |
| `JsoncPatch.UnescapeOfEscaped` | src/config/jsonc-patch.ts:60-63 | Reading a serialized string back gives the string |
| `JsoncPatch.KeyIsBoundary` | src/config/jsonc-patch.ts:158-220 | The key scan stops only where the comment stripper is outside strings and comments: the two scanners agree |
| `JsoncPatch.StripOfPatched` | src/config/jsonc-patch.ts:20-58 | Stripping the patched text gives what is before the value, stripped, the value, and what is after it, stripped |
| `JsoncPatch.StripOfSource` | src/config/jsonc-patch.ts:20-58 | Before the patch it gave the same with the old value in the middle |
| `SessionGuards.Guards.TrackRead` | src/permissions/index.ts:179-201 | A read by a session gives it a token and its access time, and changes no other but that of the evicted session; token and access maps keep equal keys, at most fifty; a fifty-first session evicts, of those accessed no later than any other, the one that came first |
| `SessionGuards.Guards.TouchSession` | src/permissions/index.ts:203-226 | Evicts exactly when a fifty-first session comes, never the session itself, and of the sessions accessed no later than any other the one that came first |
| `SessionGuards.FindOldest` | src/permissions/index.ts:211-219 | The loop over the access times in their order finds that one, if there is another session at all |
| `SessionGuards.FirstOldestIsOne` | src/permissions/index.ts:211-219 | Nothing is left open: there is only one such session |
| `SessionGuards.Guards.GuardEdit` | src/permissions/index.ts:260-280 | With the guard on, an edit of an existing project file passes exactly when the session read that file and was not deleted, compacted or evicted since |
| `SessionGuards.TokenIff` | src/permissions/index.ts:164-226 | The tokens of a session are exactly its reads since it was last forgotten |
| `SessionHistory.TokenIsOfARead` | src/permissions/index.ts:164-226 | The same on the events themselves: a read with no eviction, compaction or deletion of the session after it |
| `SessionHistory.ArrivalsAre` | src/permissions/index.ts:203-226 | The order sessions are kept in is that of the reads by which they came, since they were last forgotten |
| `SessionGuards.Guards.GuardTask` | src/permissions/index.ts:604-633 | With the guard on, a dispatch passes exactly from a known depth below the limit, which then has a lineage |
| `SessionGuards.KnownDepthHasLineage` | src/permissions/index.ts:139-163 | A known depth d comes from d successive creations by a parent, starting at a session that was mapped to a coordinator when its depth was recovered as zero |
| `SessionHistory.DepthIff` | src/permissions/index.ts:139-177 | A session has a known depth exactly if it was last created by a parent that then had one less, or, for zero, asked as the orchestrator or builder since its last creation gave it none |
| `SessionHistory.AgentIff` | src/permissions/index.ts:164-177 | A session is mapped to the agent it was last mapped to, unless it was deleted since |
| `SessionGuards.Guards.SessionCreated` | src/permissions/index.ts:139-163 | Records one more than the parent's known depth, or that the depth is unknown |
| `SessionGuards.Guards.SessionForgotten` | src/permissions/index.ts:164-179 | Deleting forgets tokens, depth and agent; compacting forgets the tokens only |

## Left out

- ReleaseReceipt.Receipt.FinalizeReceipt: errors are compared by surface and code, which fix the message; strings are compared by Unicode characters, not by UTF-16 units; the list of packages is always empty and left out.
- ReleaseChecker.Checker.Poll: the detail texts of surfaces and errors, URLs, headers and tokens are not modelled; a request is identified by what it asks for.
- ReleaseCompletion.CheckReleaseCompletion: takes the release target as already parsed, with a pinned LSP version exactly on the main lane and a tag other than the pinned release's, and the repository name as already judged; it runs for a number of passes the caller gives, and ends within the poll bound.
- ReleaseProof.ParseChecksums: gets the decoded text; UTF-8 decoding and SHA-256 are arbitrary functions.
- HTTP, retries inside one request and the classification of responses into success, retry and failure: every reply is arbitrary.
- The line hash and the autocorrection of replacement lines: arbitrary functions; no claim that autocorrection keeps text.
- HashlineEdits.ApplyHashlineEdits: what edits that are not separated mean together is not defined, only what splicing them in order gives; error messages and hints are not modelled, only their kinds.
- HashlineEdits.DetectOverlappingRanges: for ranges that are upside down it says which neighbours meet, not what that has to do with overlapping; such a range is refused when it is applied.
- HashlineStream.StreamHashLinesFromUtf8: starts from the decoder's pieces; UTF-8 decoding itself is not modelled. Line numbers start at a natural number.
- ConfigMerge.MergeSanitized: the order of an object's keys is not modelled; objects are maps. Printing an element of an accumulating list that is an object with a member `toString`, which throws, is not modelled either; here it prints as any object.
- ConfigTrees.Discarded: a tree is a value that is replaced in its layer; that the original deletes in place, inside objects shared with nothing else, is not captured.
- TolerantParse.CollectSilentUnknownKeys: gets the order in which the object at each path lists its keys, which maps do not have; any listing of each key once will do.
- TolerantParse.SilentKeysExist: the parsed data is a JSON value; data of other kinds that a schema could produce has no keys to compare.
- ProfileAliases.DirectRequirement: reading a model entry is an arbitrary function; entries have the shapes the configuration schema lets through.
- ProfileAliases.Materialize: gets the order of the agents' keys; agents inherited from the prototype of JavaScript objects are not modelled, both ways end in an error.
- JsoncPatch.ReplaceTopLevelScalar: inserting a missing field, removing a line and the trailing-comma pass are not modelled, they are backward heuristics guarded only by parsing the result again; whether a text parses is any predicate.
- JsoncPatch.Unescape: escapes of surrogates are not read; strings here are sequences of Unicode characters.
- SessionGuards.Guards.TrackRead: gets the canonical file, or none if the file is not an existing one of the project.
- SessionGuards.Guards.GuardEdit: gets the canonical file, or none if the edit is not of an existing project file outside `.omo`.
- Shell and git command parsing, README injection, truncation and the warnings of the permission hooks.
- Prompt assembly, plugin generation, the command line, MCP wiring, install scripts and the built-in tables.
- Runtime fallback, the route registry and the variant translator are not part of this model.
