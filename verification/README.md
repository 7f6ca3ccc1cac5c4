# Verified model of the Elucid log store

Elucid ingests newline-delimited JSON into a durable spool, normalizes it into typed rows, builds sorted segments, and
compacts small segments into larger ones under a transactional metastore. This project models that path and proves
what it promises. `dafny verify dfyconfig.toml` checks everything.

**Compaction** (`StableOrder`, `Segments`, `Packing`, `Cursor`, `StreamConditions`, `Claims`, `ClaimConditions`,
`Worker`, `MergeTheorem`). The merge worker is modelled as written: cursors that validate their stream batch by batch,
a heap with one entry per input, an output accumulator with its batch cache. `Worker.BuildOutputs` is proved to give
the greedy packing of the stable sort of the inputs, and `MergeTheorem` reads off what that means: the same rows,
sorted, ties by input and position, within both targets, in a bounded number of outputs. Claiming is proved to choose
only what the worker accepts. Which streams and which claims are accepted is also stated in plain comparisons, sums
and maxima.

**Compaction lifecycle** (`Metastore`, `Lifecycle`, `LifecycleSafety`, `PublicationSafety`, `RecoverySafety`, `Runs`,
`Later`, `Commits`, `Effects`, `ListedRows`, `Stages`, `ExactBounds`, `FurtherCompaction`, `SubMilliseconds`). The
metastore is a state machine whose steps are its transactions: ingest, claim, register, upload, publish, fail,
recover. One invariant is kept by every step, in any interleaving and with any transaction lost. It follows that
queries always see exactly the ingested rows, that no row is kept less long, that a claim is exclusive, that outcomes
are final, that recovery never blocks and ends with every unfinished run failed and cleaned up, and that the answer
after an uncertain commit is true whatever other transactions come before the inspection. `Effects` says what each
transaction does to every segment and object, and `ListedRows` ties the checks over listed rows to the transactions.
`Stages` and `ExactBounds` join the two halves: wherever a run of the store has got to, what the worker builds is
accepted by registration and publication.

**Spool and recovery** (`ByteStrings`, `Frames`, `FrameScan`, `Spool`, `SpoolOrder`, `SpoolRecovery`, `ReaderPlace`,
`SpoolReader`, `LateExtents`, `Checkpoints`, `CheckpointDelivery`, `OutputLog`, `OutputLogLimit`, `Layouts`). Frames
and checkpoint files are proved equal to their encodings in both directions. The spool is a class whose invariant
holds through every interleaving of reservations, writes, settlements, publications of extents, checkpoints and
reclamation. From every crash point the files recover to exactly the surviving frames. With any number of appends in
flight that are settled in order, the reader hands each batch out once and in order as long as no published extent
lies behind it, which is always so when extents are published in the order they were made. The checkpoint passes
exactly the frames before the first incomplete batch; the output recovery log rebuilds its records after a torn
append.

**Segment builders** (`BuilderRows`, `Builders`). The builders keep every row they were given, in the builder of its
source, schema and event day, with exact byte totals, targets and budgets; a batch goes in whole or not at all, and a
deferred one is accepted after draining.

**Values, text and schemas** (`Casts`, `JsonText`, `JsonGrammar`, `JsonParser`, `JsonValues`, `JsonMeaning`,
`JsonPointers`, `Schemas`, `SchemaAdapter`, `Conversions`, `Normalization`, `Catalog`, `CatalogInputs`,
`CatalogConsistency`, `CatalogApplication`). Numeric casts are exact or refused. A normalized row has, field by field,
exactly what the record says at the pointer. The JSON parser accepts exactly the texts of objects with unique keys and
at most 128 nested containers, and gives back every object that can be written. Schema histories are additive, every
stored schema of a validated source can be read under every other, projection commutes with adaptation, and there is
an exact condition for a promoted field to read from old rows what normalization would have stored. Applying a
manifest succeeds exactly when it is consistent and still declares what is stored; it extends every history, and
applying it again changes nothing.

Hashes, codecs, digests, the token scanner of JSON strings and numbers, rounding, and the reading of texts as numbers
and times are function parameters; a claim holds for all of them, or for all with a property it names.

## Where the code does less than one might expect

- A retry of a committed publication is recognised if and only if all its outputs are still active: once an output has
  been compacted further the committed run is reported as corrupt (`RecoverySafety.CommittedRunIsRecognised`).
  `FurtherCompaction.CommittedRunIsForgotten` gets there from three ingested segments.
- Registration compares microseconds while the worker truncates to milliseconds, so a correct build is accepted if and
  only if the total bounds of the inputs are whole milliseconds (`Stages.BuildPassesRegistration`).
  `SubMilliseconds.RegistrationRefusesABuild` is a build it refuses, over segments that the metastore would store but
  this service's ingestion never writes: it registers whole milliseconds
  (elucid/elucid-service/src/processing.rs:546-552), and then every segment of every run has such bounds and every build
  is accepted (`ExactBounds.EveryRunStaysExact`, `ExactBounds.EveryBuildIsPublished`).
- The check of an incomplete header ignores a field that is cut in the middle, so it can accept a tail that begins no
  frame (`FrameScan.CutFieldIsNotChecked`, with the exact condition in `FrameScan.IncompleteHeaderAcceptedIff`).
- Settling appends out of order can make an extent that ends inside a frame, and a reader then fails there though the
  frame is whole (`LateExtents.SettleOutOfOrder`, `SpoolReader.ReadInsideFrame`). `SpoolOrder.SettlingMakesBoundary`
  and `SpoolOrder.CommittedIsBoundary` say exactly when the extent ends a frame.
- An extent is published after the spool's lock is released, so two settlements or a reclamation can publish theirs in
  the other order. A reader fails or goes back to an older generation if and only if the published extent lies behind it
  (`SpoolReader.Consumer.NextBatch`): `LateExtents.PublishOutOfOrder` fails for good with every batch durable, and
  `LateExtents.PublishAfterReclamation` goes back to a generation that is gone. Publishing the oldest extent first
  prevents both (`SpoolReader.Consumer.Publish`).
- Recording does not enforce the limit of a million records that replay enforces, so a log reopens if and only if it
  is within that limit (`OutputLog.ReplayRebuilds`, `OutputLog.Reopen`); `OutputLogLimit.RecordedIsRefused` is a recorded
  log beyond it.
- Promotion and normalization disagree on a value that is out of reach of the stored row (its property was taken out as a
  whole, or the remainder is not read back) and on times of a profile that reads milliseconds, in both directions.
  `Normalization.PromotionAgrees` is the exact condition; each disagreement has a stored row that shows it.

## Model

| member | source | states |
|---|---|---|
| StableOrder.StableSortCorrect | elucid/elucid-compaction/src/worker.rs:138-234 | the order the merge must produce: by event time and then by event identity, in plain comparisons of both, a permutation, equal keys in their original order |
| StableOrder.LeastComesFirst | elucid/elucid-compaction/src/worker.rs:168-200 | taking the least head of the inputs, ties to the earlier input, is the first element of the stable sort |
| Segments.BoundsOfTight | elucid/elucid-compaction/src/worker.rs:594-645 | the running event and ingestion bounds of rows are exact: every row within, every bound attained |
| Packing.SharesAreExact | elucid/elucid-compaction/src/worker.rs:665-680 | the per-row byte estimates of a segment add up to exactly the larger of its uncompressed bytes and its rows |
| Packing.ShareRange | elucid/elucid-compaction/src/worker.rs:665-680 | every estimate is at least one and at most the whole charge |
| Packing.PackKeepsItems | elucid/elucid-compaction/src/worker.rs:168-222 | greedy packing loses, doubles and moves nothing |
| Packing.PackWithinTargets | elucid/elucid-compaction/src/worker.rs:739-753 | when every row fits the byte target alone, every packed output keeps to the row and byte targets |
| Packing.OutputCountBound | elucid/elucid-compaction/src/worker.rs:168-222 | the number of outputs is at most 1 + rows / target rows + 2 * bytes / target bytes |
| Cursor.InputCursor.CurrentKey | elucid/elucid-compaction/src/worker.rs:486-492 | the key of the row the cursor stands on |
| Cursor.InputCursor.Advance | elucid/elucid-compaction/src/worker.rs:514-537 | moves to the next row, loading the next batch at a batch end; at the end of the stream the row count and bounds were verified; fails only on an invalid stream |
| Cursor.InputCursor.LoadNextBatch | elucid/elucid-compaction/src/worker.rs:539-562 | stands on the first row of the next batch, or is exhausted at the end of a valid stream; fails only on an invalid stream |
| Cursor.InputCursor.ValidateBatch | elucid/elucid-compaction/src/worker.rs:564-645 | accepts a batch exactly when the stream up to and including it is readable, sorted, on the event day and within the row count |
| Cursor.InputCursor.ValidateRows | elucid/elucid-compaction/src/worker.rs:594-617 | rows continue a valid stream exactly when they are in order of event time and then of event identity and each time is on the day; bounds and last key stay exact |
| Cursor.InputCursor.ValidateComplete | elucid/elucid-compaction/src/worker.rs:647-663 | at the end of a stream, passes exactly when the whole stream is valid against the descriptor |
| Cursor.OpenCursor | elucid/elucid-compaction/src/worker.rs:403-484 | opens an input on its first row; fails only when the stream is invalid |
| StreamConditions.StreamIsAccepted | elucid/elucid-compaction/src/worker.rs:564-663 | a stream is accepted exactly when every read gives a well-typed non-empty batch, the rows are ordered by time and then identity, all on the event day, as many as registered, and the registered bounds truncate to their least and greatest times |
| StreamConditions.RowsOfBatches | elucid/elucid-compaction/src/worker.rs:539-562 | the rows of a stream are those of its batches, one after the other |
| Claims.LatestExpiryIsMaximum | elucid/elucid-compaction/src/worker.rs:912-917 | the claim's deadline is the latest deadline of its inputs |
| ClaimConditions.TotalsAreSums | elucid/elucid-compaction/src/worker.rs:897-911 | the totals of a claim are the sums of its rows, file sizes and uncompressed sizes |
| ClaimConditions.ExpectedOutputsIsLeast | elucid/elucid-compaction/src/worker.rs:929-933 | the expected number of outputs is the least that can hold all rows and all bytes within the targets |
| ClaimConditions.ClaimIsTaken | elucid/elucid-compaction/src/worker.rs:875-953 | a claim passes exactly when it is alike, below both targets, within all limits, with exact sums and the latest deadline, and fewer outputs than inputs can hold it; only the last failing makes it not beneficial |
| ClaimConditions.GroupMembers | elucid/elucid-metastore/src/compaction.rs:798-812 | a group has exactly the candidates of its source, schema and day |
| Claims.CandidateGroup.Consider | elucid/elucid-metastore/src/compaction.rs:1441-1491 | offers a candidate to a group: keeps the longest admissible prefix and the longest beneficial prefix of it; fails only when a total leaves 64 bits |
| Claims.CandidateGroup.Answer | elucid/elucid-metastore/src/compaction.rs:1441-1491 | the group's answer is the longest beneficial prefix among all admissible prefixes of everything offered |
| Claims.GroupCandidates | elucid/elucid-metastore/src/compaction.rs:798-812 | groups are those of the keys in order of first appearance, each offered exactly the candidates of its key in order; always succeeds within the column ranges |
| Claims.ChooseCandidateGroup | elucid/elucid-metastore/src/compaction.rs:798-824 | a selection is the longest beneficial prefix of the first group, in arrival order, that has one; none means that no group has one; within the column ranges it never fails |
| Claims.MaterializeClaim | elucid/elucid-metastore/src/compaction.rs:913-966 | succeeds exactly for two or more segments of one source, schema and day whose totals fit 64 bits; the claim has exact totals and the latest deadline |
| Claims.ChosenGroupIsAccepted | elucid/elucid-compaction/src/worker.rs:875-953 | every selection from eligible candidates is materialized into a claim that passes the worker's own check under equal limits |
| Worker.OutputAccumulator.CanAccept | elucid/elucid-compaction/src/worker.rs:739-753 | an empty output takes any row, another only within both targets; estimates of zero or above the byte target are refused |
| Worker.OutputAccumulator.Append | elucid/elucid-compaction/src/worker.rs:755-796 | adds one row with its bytes; the cache keeps one batch per input and generation |
| Worker.OutputAccumulator.Materialize | elucid/elucid-compaction/src/worker.rs:798-836 | materializing the selections through the cached batches gives back exactly the rows appended |
| Worker.MergeStep | elucid/elucid-compaction/src/worker.rs:168-200 | taking the least head off the inputs takes the first row off their stable merge |
| Worker.SelectRow | elucid/elucid-compaction/src/worker.rs:494-512 | the selected row and its byte share are the head of what the cursor has left |
| Worker.AdvanceInput | elucid/elucid-compaction/src/worker.rs:187-200 | after taking a row the heap again holds exactly the heads of the inputs that have one |
| Worker.PeekRow | elucid/elucid-compaction/src/worker.rs:177-183 | the least heap entry is always the current row of its cursor, so the mismatch guarded against cannot happen |
| Worker.FillOutput | elucid/elucid-compaction/src/worker.rs:171-203 | fills one output greedily with the next rows of the merge; with valid streams it fails exactly when the byte sum with the row after the output leaves 64 bits |
| Worker.TryAppend | elucid/elucid-compaction/src/worker.rs:184-188 | takes the row exactly when the output may take it, and fails exactly when the byte sum leaves 64 bits |
| Worker.NextOutput | elucid/elucid-compaction/src/worker.rs:170-222 | each round writes the next output of the packing and makes progress; with valid streams, byte sums in 64 bits and fitting writes it cannot fail |
| Worker.OpenInputs | elucid/elucid-compaction/src/worker.rs:138-166 | opens every input on its first row; fails only when some stream is invalid |
| Worker.FinishOutput | elucid/elucid-compaction/src/worker.rs:798-836 | a finished output has its rows, exact bounds on the event day and its bytes |
| Worker.WriteOutput | elucid/elucid-compaction/src/worker.rs:236-295 | a written output holds the accumulated rows; it fails only when a row cannot be stored or the write fails |
| Worker.PackedRowsAreStorable | elucid/elucid-compaction/src/worker.rs:798-836 | every row of a valid stream can be stored in an output, so finishing cannot fail |
| Worker.BuildOutputs | elucid/elucid-compaction/src/worker.rs:138-234 | for all limits in 64 bits: success means that every stream was valid, no byte sum left 64 bits and the outputs hold the greedy packing of the stable merge, fewer than the inputs; with a good claim, valid streams, such sums and fitting writes it succeeds exactly when the packing has fewer outputs than inputs; an input is called invalid only when the claim or a stream is, and a build not beneficial only when the packing has too many outputs |
| MergeTheorem.OutputsAreTheStableMerge | elucid/elucid-compaction/src/worker.rs:138-234 | the outputs read in order are the stable sort of the inputs read in order: every later row has a later event time, or the same time and no lesser identity; each row once, ties by input then position |
| MergeTheorem.OutputsKeepTheTargets | elucid/elucid-compaction/src/worker.rs:168-222 | every output is within both targets, no charged byte is lost, and the output count is bounded by the claim's totals |
| MergeTheorem.ClaimLimitsLeaveRoom | elucid/elucid-compaction/src/worker.rs:739-753 | under limits that claiming accepts, no byte sum of a build leaves 64 bits |
| Metastore.ReplacementTotals | elucid/elucid-metastore/src/compaction_lifecycle.rs:1044-1083 | row sum, joined bounds and latest deadline of segments; fails exactly without segments or when the sum leaves 64 bits |
| Metastore.TotalExpiry | elucid/elucid-metastore/src/compaction_lifecycle.rs:1044-1083 | the deadline of the totals is the maximum and is attained |
| Metastore.TotalOfList | elucid/elucid-metastore/src/compaction_lifecycle.rs:792-835 | the totals of a set of segments are those of any list of them, whatever its order |
| Lifecycle.ValidateOutputSet | elucid/elucid-metastore/src/compaction.rs:1108-1190 | accepts registered outputs exactly when inputs are active and owned, outputs are fewer, and rows, bounds and deadlines agree |
| Effects.ClaimTakes | elucid/elucid-metastore/src/compaction.rs:669-745 | claiming takes exactly two to a thousand active, unclaimed segments of one owner, and changes nothing but their claim |
| Effects.RegistrationStores | elucid/elucid-metastore/src/compaction.rs:1192-1266 | the first registration stores each output as prepared, with its extent, a planned object and its rows, and changes nothing else |
| Effects.RegistrationIsAdmitted | elucid/elucid-metastore/src/compaction.rs:1192-1266 | a first registration succeeds exactly for one to a thousand new outputs of the run, each its own segment and object, fewer than the inputs, which are active and owned, with the same owner, expiry, rows and bounds together |
| Effects.RepeatedRegistration | elucid/elucid-metastore/src/compaction.rs:611-666 | a repeated registration changes nothing and is accepted only for exactly the outputs stored |
| Effects.UploadMarks | elucid/elucid-metastore/src/publication.rs:500-557 | an upload marks a planned object as uploaded at that time; any other stays as it is |
| Effects.PublicationReplaces | elucid/elucid-metastore/src/compaction_lifecycle.rs:497-567 | publication makes outputs active and their objects published now, and retires each input now, to be reclaimed after the grace period; no other segment or object changes |
| Effects.RepeatedPublication | elucid/elucid-metastore/src/compaction_lifecycle.rs:221-265 | a publication that finds itself done changes nothing |
| Effects.FailureReleases | elucid/elucid-metastore/src/compaction_lifecycle.rs:569-626 | failing gives the inputs back as they were and abandons the outputs now, to be reclaimed after the grace period; nothing else changes |
| Effects.RepeatedFailure | elucid/elucid-metastore/src/compaction_lifecycle.rs:267-300 | a failure that finds the run finished changes nothing and says how it finished |
| Effects.RecoveryReleases | elucid/elucid-metastore/src/compaction_lifecycle.rs:302-359 | recovery fails exactly the runs of its batch, gives back their inputs and abandons their outputs; nothing else changes |
| ListedRows.ListedInputsDecideRegistration | elucid/elucid-metastore/src/compaction.rs:1108-1190 | in whatever order the run's inputs are listed, the check over their rows decides whether the registration transaction succeeds |
| ListedRows.ValidateCommonReplacement | elucid/elucid-metastore/src/compaction_lifecycle.rs:792-835 | the check of a loaded replacement, row by row: owners, objects, totals, bounds and deadlines; every refusal reports corruption |
| ListedRows.LoadedRowsDecideReplacement | elucid/elucid-metastore/src/compaction_lifecycle.rs:792-835 | on the rows the queries load it decides exactly what every transaction requires of a replacement |
| LifecycleSafety.ClaimKeepsInv | elucid/elucid-metastore/src/compaction.rs:669-745 | claiming keeps the invariant and what queries see |
| LifecycleSafety.RegisterKeepsInv | elucid/elucid-metastore/src/compaction.rs:611-666 | registering outputs that hold the rows of the inputs, or retrying it, keeps the invariant and what queries see |
| LifecycleSafety.RegisterReplaces | elucid/elucid-metastore/src/compaction.rs:1192-1266 | what registration leaves behind is a replacement: same rows, totals and deadlines as the inputs |
| LifecycleSafety.UploadKeepsInv | elucid/elucid-metastore/src/publication.rs:500-557 | recording an upload, once or again, keeps the invariant and what queries see |
| PublicationSafety.PublishShape | elucid/elucid-metastore/src/compaction_lifecycle.rs:497-567 | publication commits the run, touches only its segments and objects, and leaves contents, claims and producers alone |
| PublicationSafety.PublishActive | elucid/elucid-metastore/src/compaction_lifecycle.rs:497-567 | publication swaps exactly the inputs for the outputs among the active segments |
| PublicationSafety.PublishKeepsInv | elucid/elucid-metastore/src/compaction_lifecycle.rs:497-567 | publication keeps the store invariant |
| PublicationSafety.PublishKeepsRows | elucid/elucid-metastore/src/compaction_lifecycle.rs:497-567 | the multiset of visible rows is the same before and after publication |
| PublicationSafety.PublishKeepsExpiry | elucid/elucid-metastore/src/compaction_lifecycle.rs:792-835 | for every deadline, the rows kept until then do not shrink by publication |
| PublicationSafety.PublishIsSafe | elucid/elucid-metastore/src/compaction_lifecycle.rs:221-265 | publication keeps the invariant, the multiset of visible rows and their expiry, and strictly lowers the number of active segments |
| RecoverySafety.FailureIsSafe | elucid/elucid-metastore/src/compaction_lifecycle.rs:707-755 | in every reachable store an unfinished run passes the checks that guard its failure |
| RecoverySafety.FailedRunIsClean | elucid/elucid-metastore/src/compaction_lifecycle.rs:757-790 | a failed run always validates as cleaned up: no inputs, all outputs abandoned |
| RecoverySafety.CommittedRunIsRecognised | elucid/elucid-metastore/src/compaction_lifecycle.rs:665-705 | a committed run validates exactly while all its outputs are still active |
| RecoverySafety.FailIsSafe | elucid/elucid-metastore/src/compaction_lifecycle.rs:569-626 | failing releases the inputs, abandons the outputs and shows queries no difference |
| RecoverySafety.FailTransactionAnswers | elucid/elucid-metastore/src/compaction_lifecycle.rs:267-300 | what failing answers in every state of a run |
| RecoverySafety.FailRecovers | elucid/elucid-metastore/src/compaction_lifecycle.rs:569-626 | failing one run cleans up after it and leaves every other run and segment what recovery may rely on |
| RecoverySafety.RecoverySucceeds | elucid/elucid-metastore/src/compaction_lifecycle.rs:302-359 | a recovery of distinct unfinished runs always commits, finishes exactly those runs and cleans up after each: failed by recovery, inputs active and unclaimed, outputs abandoned |
| RecoverySafety.RecoveryFinishesABatch | elucid/elucid-metastore/src/compaction_lifecycle.rs:302-359 | one bounded recovery finishes and cleans up as many runs as the limit allows |
| RecoverySafety.RepeatedRecoveryEndsClean | elucid/elucid-metastore/src/compaction_lifecycle.rs:184-210 | after n recoveries exactly max(0, unfinished - n * limit) runs are left; once none is, every run unfinished at the start is failed by recovery, its inputs are active and unclaimed, its outputs abandoned |
| RecoverySafety.RecoveryNeverBlocks | elucid/elucid-metastore/src/compaction_lifecycle.rs:302-359 | in every reachable store the next recovery batch exists and its transaction commits |
| RecoverySafety.NothingUnfinishedIsClean | elucid/elucid-metastore/src/compaction_lifecycle.rs:184-210 | with no unfinished run every claim is superseded and no output is left prepared |
| Runs.StepIsSafe | elucid/elucid-metastore/src/compaction_lifecycle.rs:221-359 | every transaction, committed or refused, keeps the invariant; the visible rows grow only by ingestion and no row is kept less long |
| Runs.EveryRunConservesRows | elucid/elucid-metastore/src/compaction_lifecycle.rs:221-359 | at every point of every interleaving of transactions, any of which may be lost, queries see exactly the initial and the ingested rows, each kept at least as long |
| Runs.RunFromInitialStore | elucid/elucid-metastore/src/compaction_lifecycle.rs:221-359 | the same from a store without compactions, with the invariant at every point |
| Runs.OutcomesAreFinal | elucid/elucid-metastore/src/compaction_lifecycle.rs:221-300 | a committed or failed run stays what it is for the rest of every run of the store |
| Runs.ClaimsAreExclusive | elucid/elucid-metastore/src/compaction.rs:669-745 | a claimed segment stays with its run until that run is committed or failed; no other run can take it |
| Later.StepKeepsReady | elucid/elucid-metastore/src/compaction_lifecycle.rs:221-359 | a run ready to be published stays ready under every transaction until somebody publishes or fails it |
| Later.LaterStore | elucid/elucid-metastore/src/compaction_lifecycle.rs:837-897 | after any transactions the invariant holds, finished runs are what they were, and ready runs are ready or finished |
| Commits.InspectionTells | elucid/elucid-metastore/src/compaction_lifecycle.rs:837-863 | inspecting a durable run tells its state, except for a committed one whose outputs were compacted further |
| Commits.PublishTransactionAnswers | elucid/elucid-metastore/src/compaction_lifecycle.rs:221-265 | what publishing answers in every state of a run; a fully uploaded run is always publishable |
| Commits.PublicationAnswersTruthfully | elucid/elucid-metastore/src/compaction_lifecycle.rs:126-150 | whatever became of the commit and whatever transactions precede the inspection: success names a published run, a plain error means this publication changed nothing, a write error that the run is unfinished, and only an unreachable database or outputs compacted further leave it open |
| Commits.RetriedPublicationSettles | elucid/elucid-metastore/src/compaction_lifecycle.rs:119-150 | after any outcome of publishing a ready run and any transactions in between, an acknowledged retry publishes a run still unfinished, recognises it while its outputs are active, and refuses it only if somebody failed it |
| Commits.PublicationAnswerIs | elucid/elucid-metastore/src/compaction_lifecycle.rs:126-150 | the answer to publishing a ready run in every case of commit and inspection |
| Commits.FailureAnswersTruthfully | elucid/elucid-metastore/src/compaction_lifecycle.rs:161-182 | whatever transactions precede the inspection, the answer names the outcome the run has, an error means this request changed nothing, and a finished run is never changed |
| Commits.FailureAnswerIs | elucid/elucid-metastore/src/compaction_lifecycle.rs:161-182 | the answer to failing an unfinished run in every case of commit and inspection |
| Commits.RecoveryAnswersTruthfully | elucid/elucid-metastore/src/compaction_lifecycle.rs:192-210 | an applied batch is cleaned up at once; a reported batch is failed by recovery with nothing left half done, whoever did it; a plain error means nothing changed; an empty report means a clean store |
| Stages.BuildPassesRegistration | elucid/elucid-metastore/src/compaction.rs:1108-1190 | registration accepts a successful build exactly when the total bounds of its inputs are whole milliseconds |
| Stages.BuildHoldsMergedRows | elucid/elucid-compaction/src/worker.rs:138-234 | the outputs of a build hold exactly the rows of the claimed inputs |
| Stages.UploadedRunPublishes | elucid/elucid-metastore/src/compaction_lifecycle.rs:628-663 | once every output of a registered run is uploaded, publication succeeds |
| Stages.CompactionCompletes | elucid/elucid-metastore/src/compaction_lifecycle.rs:792-835 | from a successful build on, registration, uploads and publication all succeed, with the same rows visible in fewer segments |
| ExactBounds.EveryRunStaysExact | elucid/elucid-metastore/src/compaction.rs:1108-1190 | when ingestion writes whole milliseconds and workers register what they built, every segment of every run of the store has such bounds |
| ExactBounds.EveryBuildIsPublished | elucid/elucid-metastore/src/compaction_lifecycle.rs:792-835 | so at every point of every such run, a successful build is registered, uploaded and published, with the same rows visible in fewer segments |
| FurtherCompaction.MergeTwo | elucid/elucid-metastore/src/compaction.rs:669-745 | any two free segments of one owner with equal times and deadline can be compacted into one by four transactions |
| FurtherCompaction.PublicationForgets | elucid/elucid-metastore/src/compaction_lifecycle.rs:665-705 | whoever publishes a replacement of an output of a committed run makes inspecting and republishing that run report corruption |
| FurtherCompaction.CommittedRunIsForgotten | elucid/elucid-metastore/src/compaction_lifecycle.rs:665-705 | from three ingested segments ordinary transactions lead to a committed run that is reported as corrupt |
| SubMilliseconds.OutputsExist | elucid/elucid-compaction/src/worker.rs:138-234 | every claim with valid streams has outputs that hold its packing |
| SubMilliseconds.RegistrationRefusesABuild | elucid/elucid-metastore/src/compaction.rs:1108-1190 | from two stored segments whose bounds are not whole milliseconds the store gets to a successful build that registration refuses |
| ByteStrings.NumberOfBigEndian | elucid/elucid-ingestion/src/frame.rs:278-303 | reading back a big-endian field gives the number written |
| ByteStrings.BigEndianOfNumber | elucid/elucid-ingestion/src/frame.rs:278-303 | every field is the encoding of the number read from it |
| Frames.Prepare | elucid/elucid-ingestion/src/frame.rs:26-77 | header, body and footer together are the frame of the batch; fails only when the length leaves 64 bits |
| Frames.DecodeOfHeader | elucid/elucid-ingestion/src/frame.rs:131-178 | decoding undoes encoding of every header within the limit |
| Frames.HeaderOfDecode | elucid/elucid-ingestion/src/frame.rs:131-178 | a header that decodes is exactly the encoding of its fields |
| Layouts.FrameHeader | elucid/elucid-ingestion/src/frame.rs:131-178 | the bytes of an accepted frame header, field by field, and the metadata they give |
| Layouts.FrameFooter | elucid/elucid-ingestion/src/frame.rs:26-77 | the bytes of a frame footer |
| FrameScan.IncompleteHeaderAcceptedIff | elucid/elucid-ingestion/src/frame.rs:180-229 | an incomplete header is accepted exactly when its complete fields begin a header that decodes |
| FrameScan.CutFieldIsNotChecked | elucid/elucid-ingestion/src/frame.rs:180-229 | a tail cut inside a field can be accepted though no frame begins with it |
| FrameScan.StrictPrefixIsTail | elucid/elucid-ingestion/src/recovery.rs:278-371 | every strict prefix of a frame is accepted as an incomplete append |
| FrameScan.AcceptedFrameIsEncoded | elucid/elucid-ingestion/src/frame.rs:231-250 | bytes accepted as a frame are the encoding of the batch read from them |
| FrameScan.EncodedFrameIsAccepted | elucid/elucid-ingestion/src/frame.rs:231-250 | every encoded frame is accepted, as the batch it encodes |
| FrameScan.SplitIsUnique | elucid/elucid-ingestion/src/recovery.rs:278-371 | a file is frames and an incomplete append in at most one way |
| FrameScan.ScanFrame | elucid/elucid-ingestion/src/recovery.rs:291-352 | one step of the scan: a whole frame, an incomplete append, or neither |
| FrameScan.ScanCommittedFrames | elucid/elucid-ingestion/src/recovery.rs:278-371 | succeeds exactly when the file is a sequence of frames and an incomplete append with the checkpoint at a frame boundary, and then counts those frames, the pending ones and both byte parts |
| Spooling.Spool.constructor | elucid/elucid-ingestion/src/spool.rs:123-153 | a recovered spool accounts for exactly its frames |
| Spooling.Spool.Reserve | elucid/elucid-ingestion/src/spool.rs:304-330 | reserves exactly when writable and the largest frame fits beside everything committed and reserved; it is refused for capacity exactly when only the room is missing |
| Spooling.Spool.Release | elucid/elucid-ingestion/src/spool.rs:448-462 | gives back exactly one live reservation; the inconsistent case cannot happen |
| Spooling.Spool.WriteFrame | elucid/elucid-ingestion/src/spool.rs:387-416 | appends one whole frame under its reservation, or leaves a torn prefix and fails the spool |
| Spooling.Spool.Grow | elucid/elucid-ingestion/src/spool.rs:387-416 | a whole frame extends file and frames alike and moves its reservation to the written ones |
| Spooling.Spool.CommitReservation | elucid/elucid-ingestion/src/spool.rs:418-446 | settles a written frame: committed bytes grow by it, its reservation ends and an extent is made that is not published yet; always succeeds |
| Spooling.Spool.Publish | elucid/elucid-ingestion/src/spool.rs:443-444 | publishes any one of the extents that were made and not published |
| Spooling.Spool.AdvanceCheckpoint | elucid/elucid-ingestion/src/spool.rs:492-511 | installs a current plan within the committed bytes and nothing else |
| Spooling.Spool.ReclaimCheckpointed | elucid/elucid-ingestion/src/spool.rs:513-554 | empties the file exactly when nothing is reserved and everything is checkpointed, and starts a new generation whose extent is not published yet |
| SpoolOrder.CommittedIsBoundary | elucid/elucid-ingestion/src/spool.rs:418-446 | in every state, whatever was settled in whatever order, the committed bytes end a frame exactly when what waits has the size of the last frames of the file |
| SpoolOrder.SettlingMakesBoundary | elucid/elucid-ingestion/src/spool.rs:418-446 | settled in order so far, settling any one append in flight makes an extent that ends a frame exactly when its size is a prefix sum of the sizes in flight; the oldest always does |
| SpoolOrder.Settle | elucid/elucid-ingestion/src/spool.rs:418-446 | settling any append in flight, with that condition on the extent it makes; settling the oldest keeps the order |
| ReaderPlace.FollowKeepsPlace | elucid/elucid-ingestion/src/recovery.rs:78-92 | a reader that is not overtaken follows the published extent without losing or repeating a batch |
| ReaderPlace.PublishKeepsPlace | elucid/elucid-ingestion/src/spool.rs:443-444 | publishing any extent leaves what the reader has still to hand out as it is |
| ReaderPlace.OldestKeepsStep | elucid/elucid-ingestion/src/spool.rs:443-444 | publishing the oldest extent keeps the reader from being overtaken |
| ReaderPlace.MadeInStep | elucid/elucid-ingestion/src/spool.rs:437-442 | extents that are made reach ever further, across generations too |
| SpoolRecovery.CheckpointRoundTrip | elucid/elucid-ingestion/src/checkpoint.rs:78-110 | a checkpoint file loads as a position exactly when it is the encoding of that position |
| Layouts.CheckpointFile | elucid/elucid-ingestion/src/checkpoint.rs:89-110 | the bytes of a checkpoint file that loads as a position |
| SpoolRecovery.Open | elucid/elucid-ingestion/src/recovery.rs:203-268 | recovery succeeds exactly on recoverable files and hands out a spool with exactly their whole frames |
| SpoolRecovery.EveryCrashIsRecoverable | elucid/elucid-ingestion/src/spool.rs:513-554 | from every crash point of append, checkpoint advance and reclamation the files are recoverable with the surviving frames |
| SpoolRecovery.NothingAcknowledgedIsLost | elucid/elucid-ingestion/src/spool.rs:362-385 | only frames the checkpoint had passed are ever gone, and only appended frames come back, in order |
| SpoolRecovery.RecoverAfterCrash | elucid/elucid-ingestion/src/recovery.rs:203-268 | crash, then recovery: a valid spool with exactly the surviving frames and the surviving checkpoint |
| SpoolReader.ReadRecoveredBatch | elucid/elucid-ingestion/src/recovery.rs:373-425 | reads exactly the frame at the position, exactly when a whole one lies within the given range, whatever the file holds |
| SpoolReader.ReadInsideFrame | elucid/elucid-ingestion/src/recovery.rs:373-425 | told of an extent that ends inside the next frame, the reader always fails there |
| SpoolReader.QuietIsInOrder | elucid/elucid-ingestion/src/spool.rs:362-385 | whenever nothing is in flight the spool is settled in order again |
| SpoolReader.AppendSettled | elucid/elucid-ingestion/src/spool.rs:271-292 | succeeds exactly when body, limit and capacity allow; then exactly its frame is added, settled and published, else nothing is |
| SpoolReader.Consumer.constructor | elucid/elucid-ingestion/src/recovery.rs:160-194 | the reader starts at the checkpoint, in step, with everything pending still to hand out |
| SpoolReader.Consumer.NextBatch | elucid/elucid-ingestion/src/recovery.rs:65-124 | with appends settled in order and extents published in any order, it fails or goes back to an older generation if and only if it follows the spool and the published extent lies behind it; else it hands out the next batch up to that extent, in order and once; with extents published in the order they were made that never happens |
| SpoolReader.Consumer.Follow | elucid/elucid-ingestion/src/recovery.rs:78-92 | takes the generation of the published extent; fails exactly when the extent ends before the position it then has |
| SpoolReader.Consumer.Publish | elucid/elucid-ingestion/src/spool.rs:443-444 | publishing any extent keeps the reader valid; publishing the oldest keeps it in step |
| LateExtents.SettleOutOfOrder | elucid/elucid-ingestion/src/spool.rs:418-446 | with bodies of one and two bytes in flight, the second settled and published first: the reader hands out the first batch and fails on the second |
| LateExtents.PublishOutOfOrder | elucid/elucid-ingestion/src/spool.rs:443-444 | settled in order, but the second extent published first: the reader hands out both batches and fails for good when the first extent comes |
| LateExtents.PublishAfterReclamation | elucid/elucid-ingestion/src/spool.rs:550-551 | and when everything was reclaimed before it comes, the reader goes back to the old generation and fails there |
| SpoolReader.Consumer.WaitNextBatch | elucid/elucid-ingestion/src/recovery.rs:132-149 | the same for one round of waiting; in step it never fails, and when it has nothing to hand out and nothing is unpublished, everything was handed out |
| SpoolReader.Consumer.Reserve | elucid/elucid-ingestion/src/spool.rs:304-330 | reserves exactly when writable and the largest frame fits, and shows the reader nothing |
| SpoolReader.Consumer.Release | elucid/elucid-ingestion/src/spool.rs:448-462 | gives back one reservation and shows the reader nothing |
| SpoolReader.Consumer.Write | elucid/elucid-ingestion/src/spool.rs:387-416 | a frame written beside others in flight, or torn, shows the reader nothing yet |
| SpoolReader.Consumer.SettleOldest | elucid/elucid-ingestion/src/spool.rs:418-446 | settling the oldest append in flight adds exactly its batch to what the reader will hand out, and makes the extent that ends it |
| SpoolReader.Consumer.Append | elucid/elucid-ingestion/src/spool.rs:271-292 | with nothing else in flight, succeeds exactly when body, limit and capacity allow, and then adds exactly its batch to what the reader will hand out |
| SpoolReader.Consumer.Advance | elucid/elucid-ingestion/src/spool.rs:492-511 | checkpoints of delivered batches move the checkpoint exactly when current and committed, and keep the reader in step |
| SpoolReader.Consumer.Reclaim | elucid/elucid-ingestion/src/spool.rs:513-554 | reclamation happens only when everything was handed out and nothing is in flight, and keeps the reader in step |
| Checkpoints.CollectCoverage | elucid/elucid-ingestion/src/output_recovery.rs:404-430 | succeeds exactly when published coverage is known, in place and without overlap, and collects it; unknown, misplaced and repeated positions are told apart |
| Checkpoints.CollectBatch | elucid/elucid-ingestion/src/output_recovery.rs:404-430 | the coverage of one batch is added whole, or the first position that is unknown, misplaced or already covered is told |
| Checkpoints.PlanCheckpoint | elucid/elucid-ingestion/src/output_recovery.rs:391-447 | targets the end of the longest completely covered prefix, always forward, and plans nothing exactly when that prefix is empty; fails exactly on repeated batches, unsound coverage or a gap up to the first incomplete batch; each error names what is wrong |
| Checkpoints.PrefixIsUnique | elucid/elucid-ingestion/src/output_recovery.rs:432-445 | there is only one longest covered prefix |
| Checkpoints.BatchesAreDistinct | elucid/elucid-ingestion/src/output_recovery.rs:396-402 | accepts exactly when no batch is listed twice |
| Checkpoints.PlanTargetsBoundary | elucid/elucid-ingestion/src/output_recovery.rs:432-447 | a plan over the spool's batches always targets a frame boundary |
| Checkpoints.SpoolBatchesAreContiguous | elucid/elucid-ingestion/src/output_recovery.rs:432-436 | the batches of the spool are always contiguous |
| CheckpointDelivery.CheckpointDelivered | elucid/elucid-ingestion/src/output_recovery.rs:391-447 | planning over what the reader handed out and advancing: fails exactly on repeated batches or unsound coverage, and the checkpoint then passes exactly the frames up to the first incomplete batch |
| OutputLog.RevisionsCount | elucid/elucid-ingestion/src/output_recovery.rs:1312-1329 | every identity is held at the revision that counts its recordings |
| OutputLog.ReplayHoldsLatest | elucid/elucid-ingestion/src/output_recovery.rs:827-904 | replay holds the last record of every identity |
| OutputLog.RecordsKeepTheirCoverage | elucid/elucid-ingestion/src/output_recovery.rs:1312-1329 | across all revisions a record keeps its coverage and kind, and revisions rise |
| OutputLog.ObjectsStayDistinct | elucid/elucid-ingestion/src/output_recovery.rs:1331-1342 | distinct records never hold the same object |
| OutputLog.LogHeaderFieldsOf | elucid/elucid-ingestion/src/output_recovery.rs:955-983 | decoding a written header gives back its fields |
| Layouts.RecoveryLogHeader | elucid/elucid-ingestion/src/output_recovery.rs:955-983 | the bytes of an accepted log header, field by field |
| Layouts.IncompleteLogHeader | elucid/elucid-ingestion/src/output_recovery.rs:985-1015 | what is accepted where less than a header is left |
| OutputLog.ScanLog | elucid/elucid-ingestion/src/output_recovery.rs:827-904 | accepts exactly the logs: frames of payloads that read as a history of admissible revisions, then nothing or an incomplete append, within the record cap; and rebuilds that history |
| OutputLog.FrameIsRead | elucid/elucid-ingestion/src/output_recovery.rs:1017-1041 | bytes read as a frame are the frame of the record that was read |
| OutputLog.AcceptedIsLog | elucid/elucid-ingestion/src/output_recovery.rs:827-904 | an accepted file is a log of the records rebuilt from it |
| OutputLog.LogIsAccepted | elucid/elucid-ingestion/src/output_recovery.rs:827-904 | every log is accepted and rebuilt exactly when it holds no more records than the cap |
| OutputLog.ReplayRebuilds | elucid/elucid-ingestion/src/output_recovery.rs:827-904 | replaying a log, even one cut inside its last append, rebuilds exactly the records it was written from, if and only if at most a million identities are held |
| OutputLogLimit.ManyAreAdmissible | elucid/elucid-ingestion/src/output_recovery.rs:519-539 | records of any number of identities, each covering one row, are all recorded, by every codec that constructs and fits them |
| OutputLogLimit.RecordedIsRefused | elucid/elucid-ingestion/src/output_recovery.rs:827-904 | a log of more than a million identities, recorded without objection, is refused by replay |
| OutputLog.OutputRecoveryLog.Record | elucid/elucid-ingestion/src/output_recovery.rs:519-539 | under its own root, succeeds exactly for what is already stored and for a first revision or the next one with the same coverage and kind, an object no other record has and a payload within 8 MiB; a repeated request changes nothing |
| OutputLog.OutputRecoveryLog.Reclaim | elucid/elucid-ingestion/src/output_recovery.rs:541-584 | empties the log exactly when every range of every record ends within the reclaimed bytes |
| OutputLog.Reopen | elucid/elucid-ingestion/src/output_recovery.rs:783-825 | after a torn append the log reopens with every recorded revision, if and only if it is within the record cap |
| BuilderRows.SealKeeps | elucid/elucid-ingestion/src/segment.rs:716-724 | sealing a builder keeps every row and both totals |
| BuilderRows.AddKeeps | elucid/elucid-ingestion/src/segment.rs:749-763 | adding a row adds exactly that row and its sizes |
| BuilderRows.KeyIsUnique | elucid/elucid-ingestion/src/segment.rs:635-646 | a row belongs to exactly one builder: that of its source, schema and event day |
| Builders.PlanBatchRows | elucid/elucid-ingestion/src/segment.rs:817-843 | exact totals of a batch, or overflow |
| Builders.SealSegment | elucid/elucid-ingestion/src/segment.rs:765-801 | a sealed segment has the builder's rows in stable stored order and exact time bounds |
| Builders.LeastRecentlyTouched | elucid/elucid-ingestion/src/segment.rs:657-664 | the builder touched longest ago, the least key among equals |
| Builders.SegmentBuilders.constructor | elucid/elucid-ingestion/src/segment.rs:426-440 | no rows held, nothing pushed |
| Builders.SegmentBuilders.Seal | elucid/elucid-ingestion/src/segment.rs:716-724 | moves one builder to the sealed queue and keeps the invariant |
| Builders.SegmentBuilders.SealKeys | elucid/elucid-ingestion/src/segment.rs:617-633 | seals exactly the given builders, once each, by source, then schema, then day |
| Builders.SegmentBuilders.ObserveTime | elucid/elucid-ingestion/src/segment.rs:606-615 | time is never observed backwards |
| Builders.SegmentBuilders.SealExpired | elucid/elucid-ingestion/src/segment.rs:566-569 | seals exactly the builders open for the maximal duration, by source, schema and day, for their age, or refuses a clock that ran backwards and changes nothing |
| Builders.SegmentBuilders.FlushAll | elucid/elucid-ingestion/src/segment.rs:576-578 | seals every builder, by source, schema and day, with that reason |
| Builders.SegmentBuilders.TakeNextSealed | elucid/elucid-ingestion/src/segment.rs:585-604 | hands over the oldest sealed segment with its rows and its share of both totals; every row is of the segment's source and schema and on its event day, and the rows are in order of event time and then of event identity |
| Builders.SegmentBuilders.MakeRoom | elucid/elucid-ingestion/src/segment.rs:647-666 | never fails; seals nothing when the row has room, else exactly one builder: its own when the row would pass the byte target, or the least recently touched one when there are too many |
| Builders.SegmentBuilders.PushRow | elucid/elucid-ingestion/src/segment.rs:635-705 | never fails: the row goes into the builder of its source, schema and event day, as its last, with exact sizes, opened now if it is new and touched last; builders are sealed only for room or because that one reached a target, with that reason |
| Builders.SegmentBuilders.AddRow | elucid/elucid-ingestion/src/segment.rs:668-693 | none of its sums leaves 64 bits; puts the row in its builder as the most recently touched, with exact totals |
| Builders.SegmentBuilders.SumsFit | elucid/elucid-ingestion/src/segment.rs:749-763 | within the budgets no builder sum can leave 64 bits |
| Builders.SegmentBuilders.PushRows | elucid/elucid-ingestion/src/segment.rs:540-553 | the accepted rows go in one after the other, and every dead letter is listed |
| Builders.SegmentBuilders.PushBatch | elucid/elucid-ingestion/src/segment.rs:486-559 | decided by time, sizes, budgets and access count alone: expired builders are sealed first; an accepted batch has all its rows go in one after the other, a deferred one has everything sealed for that capacity, a refused one does nothing more; no overflow check after the verdict can fail |
| Builders.DeferredFitsEmpty | elucid/elucid-ingestion/src/segment.rs:516-527 | a deferred batch is accepted once nothing is held |
| Builders.DrainAndRetry | elucid/elucid-ingestion/src/segment.rs:516-527 | draining the sealed queue and retrying accepts the deferred batch |
| Casts.ExactIffMantissa | elucid/elucid-engine/src/runtime.rs:780-787 | an integer counts as exact exactly when it is a mantissa of that many digits times a power of two |
| Casts.ExactIffInFormat | elucid/elucid-engine/src/runtime.rs:780-787 | for 64-bit integers that is membership in the float format |
| Casts.Widening | elucid/elucid-engine/src/runtime.rs:704-722 | every binary32 number is a binary64 number |
| Casts.IntegerTarget | elucid/elucid-engine/src/runtime.rs:642-676 | an integer target takes exactly the whole numbers in its range |
| Casts.FloatTarget | elucid/elucid-engine/src/runtime.rs:678-722 | a float target takes exactly the numbers of its format, whatever the rounding does to others |
| Casts.CastIsExact | elucid/elucid-engine/src/runtime.rs:630-761 | a numeric cast succeeds exactly when the target type has the number, and then gives that number |
| Casts.FloatsAre | elucid/elucid-engine/src/runtime.rs:630-761 | the numbers the float types have are exactly the integers below 24 and 53 bits scaled by powers of two within their exponent ranges, in literals |
| Casts.CastsInvert | elucid/elucid-engine/src/runtime.rs:630-761 | casting back succeeds and gives the original |
| JsonGrammar.ReadValueSound | elucid/elucid-ingestion/src/normalization.rs:917-938 | what is read is a legal tree printed where it was read |
| JsonGrammar.ReadValueComplete | elucid/elucid-ingestion/src/normalization.rs:917-938 | every legal tree is read back from its print, after any white space and before anything that may follow |
| JsonGrammar.ReadNumberSound | elucid/elucid-ingestion/src/normalization.rs:1006-1017 | a number token ends where no number character follows |
| JsonGrammar.ReadNumberComplete | elucid/elucid-ingestion/src/normalization.rs:1006-1017 | every number token followed by such a character is read whole |
| JsonText.LegalDepth | elucid/elucid-ingestion/src/normalization.rs:1057-1063 | legal trees nest at most 128 containers |
| JsonParser.Parser.SkipWhitespace | elucid/elucid-ingestion/src/normalization.rs:1031-1035 | skips exactly the white space |
| JsonParser.Parser.ConsumeIf | elucid/elucid-ingestion/src/normalization.rs:1044-1050 | consumes exactly the expected byte |
| JsonParser.Parser.ConsumeLiteral | elucid/elucid-ingestion/src/normalization.rs:1019-1029 | consumes exactly the expected word |
| JsonParser.Parser.ParseString | elucid/elucid-ingestion/src/normalization.rs:984-1004 | reads exactly the quoted token and what it spells |
| JsonParser.Parser.ParseNumber | elucid/elucid-ingestion/src/normalization.rs:1006-1017 | reads exactly the number token and what it spells |
| JsonParser.Parser.ParseValue | elucid/elucid-ingestion/src/normalization.rs:917-938 | reads the value of the tree the grammar reads, and stops at its end |
| JsonParser.Parser.ParseArray | elucid/elucid-ingestion/src/normalization.rs:940-956 | reads the elements the grammar reads |
| JsonParser.Parser.ParseMap | elucid/elucid-ingestion/src/normalization.rs:958-982 | reads the entries the grammar reads, refusing a key twice |
| JsonParser.ParseRecord | elucid/elucid-ingestion/src/normalization.rs:899-915 | succeeds exactly on texts of objects with unique keys and at most 128 nested containers, and gives the entries the text prints |
| JsonParser.RecordIsRead | elucid/elucid-ingestion/src/normalization.rs:899-915 | every text of a record is read as that record |
| JsonParser.RecordIsUnique | elucid/elucid-ingestion/src/normalization.rs:899-915 | a text prints at most one record, so parsing undoes printing |
| JsonValues.ObjectsWithText | elucid/elucid-ingestion/src/normalization.rs:899-915 | exactly the objects of spelled tokens with at most 128 nested containers have a text |
| JsonValues.TreeOf | elucid/elucid-ingestion/src/normalization.rs:917-938 | every such value has a text |
| JsonValues.LegalIsWritable | elucid/elucid-ingestion/src/normalization.rs:917-938 | every value read is such a value |
| JsonValues.WriteThenParse | elucid/elucid-ingestion/src/normalization.rs:899-915 | parsing gives back every object that was written |
| JsonMeaning.TextOfValue | elucid/elucid-ingestion/src/normalization.rs:917-982 | the bytes of every text: words, tokens as spelled, brackets, braces, commas and colons |
| JsonMeaning.ValueOfText | elucid/elucid-ingestion/src/normalization.rs:917-982 | the value of every text: words, tokens as the lexer reads them, elements in order, members under their keys |
| JsonPointers.Display | elucid/elucid-catalog/src/json_pointer.rs:68-82 | writes the shown form of the tokens, which parsing reads back |
| JsonPointers.DecodeToken | elucid/elucid-catalog/src/json_pointer.rs:84-104 | decodes a token or names the byte of its first bad escape |
| JsonPointers.EscapeOfUnescape | elucid/elucid-catalog/src/json_pointer.rs:84-104 | encoding undoes decoding of a token |
| JsonPointers.UnescapeOfEscape | elucid/elucid-catalog/src/json_pointer.rs:84-104 | decoding undoes encoding, and an encoded token has no slash |
| JsonPointers.EscapeSpells | elucid/elucid-catalog/src/json_pointer.rs:68-82 | wherever a character stands a tilde is spelled ~0, a slash ~1 and any other as itself |
| JsonPointers.Parse | elucid/elucid-catalog/src/json_pointer.rs:29-42 | splits and decodes exactly as the specification of the pointer text, with its first error |
| JsonPointers.ParseOfShow | elucid/elucid-catalog/src/json_pointer.rs:29-42 | parsing undoes display |
| JsonPointers.ShowOfParse | elucid/elucid-catalog/src/json_pointer.rs:68-82 | display undoes parsing |
| JsonPointers.ParseRefuses | elucid/elucid-catalog/src/json_pointer.rs:29-42 | a text is no pointer exactly when it is not empty and lacks the leading slash, or has a tilde that begins neither escape |
| JsonPointers.UnescapeErrorAt | elucid/elucid-catalog/src/json_pointer.rs:84-104 | the error of a malformed token gives the byte offset of its first stray tilde: the UTF-8 length of everything before it |
| Schemas.NewSchema | elucid/elucid-catalog/src/schema.rs:240-297 | a schema is built exactly from distinct user fields, which are its data fields |
| Schemas.SchemaShape | elucid/elucid-catalog/src/schema.rs:240-297 | a schema is exactly event time, ingestion time and event identity, then distinct user fields outside the reserved identities, types and names, then the nullable remainder, field by field in literals |
| Schemas.CheckUnique | elucid/elucid-catalog/src/schema.rs:357-371 | passes exactly when field identities and names are distinct |
| Schemas.ListSchemas | elucid/elucid-catalog/src/source.rs:106-128 | passes exactly when sources, versions, identities and field identities are in order; each error names what is wrong |
| Schemas.ValidateAdditive | elucid/elucid-catalog/src/source.rs:143-232 | accepts exactly when the later data fields begin with the earlier ones, unchanged but for descriptions, and what is appended is nullable; the error is that of the first field that does not go on from the earlier ones |
| Schemas.EnterFields | elucid/elucid-catalog/src/source.rs:246-281 | accepts exactly when field identities and names correspond one to one over the whole history; a reused identity and a reused name are told apart |
| Schemas.ValidateHistory | elucid/elucid-catalog/src/source.rs:95-141 | accepts exactly the valid histories and finds the active schema; each error names what is wrong |
| Schemas.EveryLaterExtends | elucid/elucid-catalog/src/source.rs:129-131 | checking neighbours is enough: every later schema extends every earlier one |
| SchemaAdapter.BuildPlan | elucid/elucid-engine/src/schema_adapter.rs:25-80 | plans for every active field its own stored column, or else the remainder at its pointer, or else nulls; fails exactly for another source, a missing remainder, a stored field of another type or a missing field that cannot be filled in |
| SchemaAdapter.PlanFieldMeans | elucid/elucid-engine/src/schema_adapter.rs:37-76 | planning a field succeeds exactly when it is readable, with its own column, the remainder at its pointer, or nulls |
| SchemaAdapter.AdaptedByPlan | elucid/elucid-engine/src/schema_adapter.rs:278-316 | what such a plan reads from a batch is that column |
| SchemaAdapter.BuildPlanInHistory | elucid/elucid-engine/src/schema_adapter.rs:25-80 | for any two schemas of a validated source, in either order, building the plan succeeds |
| SchemaAdapter.HistoryPlans | elucid/elucid-engine/src/schema_adapter.rs:25-80 | no field of a validated source is ever unreadable in another of its schemas |
| SchemaAdapter.PlansReadWithin | elucid/elucid-engine/src/schema_adapter.rs:25-80 | plans read only columns the stored schema has |
| SchemaAdapter.EqualArrowEqualPlans | elucid/elucid-engine/src/schema_adapter.rs:82-84 | stored schemas with equal Arrow fields are read by equal plans |
| SchemaAdapter.ArrowTells | elucid/elucid-catalog/src/schema.rs:184-197 | Arrow fields are equal exactly when identity, name, logical type and nullability are; only text and JSON share an Arrow type, and metadata tells JSON and event identities |
| SchemaAdapter.FindPlan | elucid/elucid-engine/src/schema_adapter.rs:159-174 | finds a plan exactly when the table has the planned fields and some plan has the fields of the file |
| SchemaAdapter.FoundPlanIsItsOwn | elucid/elucid-engine/src/schema_adapter.rs:159-174 | whichever plan has the fields of the stored schema reads as that schema's own plan |
| SchemaAdapter.ProjectionIndex | elucid/elucid-engine/src/schema_adapter.rs:237-246 | each stored column is read once, at the index returned |
| SchemaAdapter.MapSchema | elucid/elucid-engine/src/schema_adapter.rs:203-234 | succeeds exactly when every projected field is active, and every mapping does what the plan says |
| SchemaAdapter.MapBatch | elucid/elucid-engine/src/schema_adapter.rs:278-316 | makes each projected column from the columns read |
| SchemaAdapter.ReadProjected | elucid/elucid-engine/src/schema_adapter.rs:203-316 | mapping a projection equals projecting the full adaptation |
| SchemaAdapter.ReadInHistory | elucid/elucid-engine/src/schema_adapter.rs:203-316 | for any two schemas of a validated source and whichever plan is found first, reading a projection succeeds exactly when table and projected fields are the active ones; each column is the stored column of that identity, or else what the remainder column has at the field's pointer, or else nulls |
| Conversions.ResolvePointer | elucid/elucid-ingestion/src/normalization.rs:799-812 | finds a value exactly where the pointer leads: through members by name and through array elements by decimal index |
| Conversions.ArrayIndexMeans | elucid/elucid-ingestion/src/normalization.rs:814-819 | an array index is a number in its decimal spelling and nothing else |
| Conversions.ConvertMeans | elucid/elucid-ingestion/src/normalization.rs:821-897 | a value is converted exactly when it is one of the field's type: an integer in the type's range, the reader's float bits, the text, the boolean or the time, and to exactly that |
| Conversions.ConvertHistoricalMeans | elucid/elucid-engine/src/schema_adapter.rs:337-430 | the adapter converts likewise, with times in RFC 3339 |
| Normalization.FieldValueMeans | elucid/elucid-ingestion/src/normalization.rs:750-797 | a field's value is what the record has at its pointer, or null where that is nothing or null and null is allowed; else it is missing, null or of another type |
| Normalization.HistoricalValueMeans | elucid/elucid-engine/src/schema_adapter.rs:432-462 | a promoted field reads what the stored remainder gives at its pointer, and null where that is nothing |
| Normalization.RemovedProperties | elucid/elucid-ingestion/src/normalization.rs:656-663 | the top-level properties a profile takes out of the record |
| Normalization.NormalizeRecord | elucid/elucid-ingestion/src/normalization.rs:738-786 | the row has the time and the values the record has at the pointers, each the integer, float bits, text, boolean or time of the field's type, null only where that is allowed, and the remainder is what no mapping took out as a whole; a refusal names the event time or the first field without a value, and why |
| Normalization.NormalizeLine | elucid/elucid-ingestion/src/normalization.rs:738-786 | a line is a parse failure exactly when it prints no record; any other has that row or that refusal of the record it prints |
| Normalization.RemainderKeeps | elucid/elucid-ingestion/src/normalization.rs:770-777 | a pointer into properties that were not taken out finds in the remainder what it finds in the record |
| Normalization.RemainderLacks | elucid/elucid-ingestion/src/normalization.rs:770-777 | a pointer into a property that was taken out finds nothing in the remainder |
| Normalization.PromotionAgrees | elucid/elucid-engine/src/schema_adapter.rs:432-504 | a promoted field reads from an older row what a profile mapping it would have stored if and only if the record has no value there, or the value is reachable and, if a time, RFC 3339 under that profile, or would be refused on both sides |
| Normalization.PromotionNeedsTheProperty | elucid/elucid-engine/src/schema_adapter.rs:432-462 | a stored row shows it: a property the old profile mapped as a whole cannot be promoted |
| Normalization.PromotionNeedsRfc3339 | elucid/elucid-engine/src/schema_adapter.rs:497-504 | a stored row shows it: a time in milliseconds is null to the adapter |
| Normalization.PromotionReadsRefusedTimes | elucid/elucid-engine/src/schema_adapter.rs:497-504 | a stored row shows it: a text that such a profile refuses is a time to the adapter |
| Normalization.PromotionNeedsShallowRemainders | elucid/elucid-engine/src/schema_adapter.rs:444-450 | for every depth at which the remainder is no longer read back, a record one level inside it shows a field that is stored and read as null |
| Catalog.IdentifyFields | elucid/elucid-catalog/src/application.rs:416-452 | declared fields keep the identity of their name, and new names get new, distinct ones; fails exactly on a pointer of a field that is not nullable |
| Catalog.CreateSchema | elucid/elucid-catalog/src/application.rs:416-480 | with new identities succeeds exactly when names are distinct and pointers are on nullable fields; the schema is what is declared, with the known identities of names |
| Catalog.PlanSchemas | elucid/elucid-catalog/src/application.rs:382-499 | with new identities succeeds exactly when the stored schemas are what is declared first and the rest can be made; stored schemas are an unchanged prefix, names keep their identities, and a history that already is what is declared generates none |
| Catalog.ReflectingIsDeclared | elucid/elucid-catalog/src/application.rs:774-779 | with injective digests a stored schema that passes is the declaration itself |
| Catalog.ReflectingProfileIsDeclared | elucid/elucid-catalog/src/application.rs:788-797 | with injective digests a stored profile that passes is the declaration itself |
| Catalog.ResolveMappings | elucid/elucid-catalog/src/application.rs:734-772 | succeeds exactly when every target is a field and none is named twice; the mappings declare back to the declaration |
| Catalog.CreateProfile | elucid/elucid-catalog/src/application.rs:734-772 | succeeds exactly when its mappings resolve; the profile is what is declared and passes the check of stored profiles |
| Catalog.PlanProfiles | elucid/elucid-catalog/src/application.rs:626-727 | succeeds exactly when the stored profiles are what is declared first and the rest resolve; stored ones are an unchanged prefix, and when they already are what is declared no identity is generated |
| CatalogInputs.ValidateInputs | elucid/elucid-catalog/src/source.rs:283-353 | accepts exactly the inputs with matching source, distinct identities and names, and complete mappings |
| CatalogInputs.PlanInput | elucid/elucid-catalog/src/application.rs:541-609 | with new identities and injective digests succeeds exactly when revisions rise, the active one is declared, the stored input verifies and its profiles can be planned; a stored input keeps its identity and profiles |
| CatalogInputs.PlanInputs | elucid/elucid-catalog/src/application.rs:506-618 | succeeds exactly when no stored input is omitted and each can be planned; none is shortened, they come out in name order with distinct identities, and when they already are what is declared no identity is generated |
| CatalogConsistency.HistoryIsOk | elucid/elucid-catalog/src/source.rs:95-141 | a history that stands for a consistent declared one is valid |
| CatalogConsistency.HistoryIsConsistent | elucid/elucid-catalog/src/source.rs:95-141 | a valid history stands for a consistent declared one |
| CatalogConsistency.ProfileIsOk | elucid/elucid-catalog/src/source.rs:322-353 | a profile that stands for a consistent declared one is valid |
| CatalogConsistency.ProfileIsConsistent | elucid/elucid-catalog/src/source.rs:322-353 | a valid profile of distinct targets stands for a consistent declared one |
| CatalogConsistency.SourceIsConsistent | elucid/elucid-catalog/src/source.rs:21-47 | a valid source that is what a manifest declares shows the manifest to be consistent |
| CatalogApplication.NewSource | elucid/elucid-catalog/src/source.rs:21-47 | a source is built exactly when its history and inputs are valid, and an incompatible history is told apart |
| CatalogApplication.PlanApplication | elucid/elucid-catalog/src/application.rs:291-380 | with new identities and injective digests succeeds exactly when the manifest is consistent and still declares everything stored; the result is a valid source that is what it declares and extends every stored history, and the outcome tells whether something was created, changed or neither; a source that already is, is left unchanged and no identity is generated; a history is called diverged only when less is declared than stored, and a definition conflicting only when something stored is declared otherwise |
| CatalogApplication.ApplicableSource | elucid/elucid-catalog/src/application.rs:291-380 | what is planned from an applicable manifest passes the checks of a source |
| CatalogApplication.SuccessIsApplicable | elucid/elucid-catalog/src/application.rs:291-380 | what was planned shows the manifest to be applicable |
| CatalogApplication.ApplyTwice | elucid/elucid-catalog/src/application.rs:291-380 | applying the same manifest to the result is unchanged and yields the same source |

## Left out

- PostgreSQL, object storage, Parquet, Arrow buffers, the file system and the asynchronous runtime: a transaction, a write or a read is one atomic step, and its failure is a parameter or the absorbing failed state.
- Ghost functions model the metastore transactions on values: row locks and isolation are not modelled, only that committed transactions take effect one at a time.
- BLAKE3, the drawing of UUIDs, canonical JSON, string and number scanning and calendar parsing: parameters, with their faithfulness or injectivity named where a claim needs it.
- Runs.EveryRunConservesRows: assumes that registered outputs hold the rows of the claimed inputs, which `Stages.BuildHoldsMergedRows` proves of every build.
- Retention and object reclamation, with the object states that only deletion reaches.
- The matching of uploaded descriptors against registered metadata, and descriptor constructors.
- SpoolReader.Consumer.NextBatch: its condition for failing is stated for appends that are settled in the order they were written, because otherwise an extent need not end a frame; what it does for one given extent is stated without that.
- What an output record says beyond its identity, revision, kind, object, root and coverage: one number, and a parameter tells which records there can be.
- Row size estimates in segment builders: taken as given for each row.
- Normalization of whole batches: line splitting, the limit on event days, dead-letter payloads and UTF-8 checks.
- The text of a stored remainder: writing it and reading it back is a parameter that returns the same value or refuses it. The JSON library behind it is not part of this model; with its usual recursion limit it would refuse the 128th nested container, which `Normalization.PromotionNeedsShallowRemainders` covers for every such limit.
- CatalogApplication.PlanApplication: states when it succeeds for identities that are new and digests that tell declarations apart; which of several errors is reported first is not stated, here and in the members it calls.
- Casts from and to text, JSON and times, the sign of zero, and the query language with its lowering and aggregates.
- Command line, web interface, configuration, metrics, and accessors such as usage and next expiration.
