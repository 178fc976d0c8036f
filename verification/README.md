# Bayou documents: collaborative editing and its encoding, verified

Bayou keeps each part of a document (its body, its properties, its carets) as a numbered log of changes. A client
sends a change against some revision; the server rebases it over what has happened since, appends it if nobody else
was faster, tries again otherwise, and answers with a *correction*: what leads from the result that the client expects
to the one that has come about. The body client shows the text in an editor, where its user goes on typing while all
this happens. The values that travel between them are encoded as trees with tagged constructor calls.

This project models that system in Dafny and proves what it is meant to guarantee, over all runs and all inputs, and
exactly when it does where it does not always.

`dafny verify dfyconfig.toml` checks everything.

## How the model is laid out

**Deltas and snapshots.** `BodyDelta` has the operations of a body (text, embed, retain, delete), what a delta does to
a body (`Apply`), composition (`Compose`) and transformation (`Transform`). `BodyLaws`, `BodyTransform` and
`BodyDocument` prove their laws; what a transformation should give is defined on its own, as a merge (`Weave`) of two
concurrent deltas, element by element and gap by gap. `PropertyDelta`, `PropertySnapshot`, `CaretDelta`, `CaretLaws`
and `CaretSnapshot` do the same for the other two parts, with the loops of the code as methods over insertion-ordered
maps (`JsMap`). What a delta means is always a function on contents (`Apply`), which composition is proved against.

**Parts.** `Part` states the laws that the server and the cache rely on. `BodyPart`, `PropertyPart` and `CaretPart`
prove them for each kind of part, and say what rebasing makes of a change. `BodyNewline` is about body changes that
leave the final newline alone, and `BodyFirstContents` about the one case in which that is not enough. `CaretControl`
has the changes that the caret controller makes by itself.

**Server.** `ChangeLog` has the reads: ranges, and compositions in chunks. `ServerSteps` is the state machine of a
part, durable or ephemeral: any number of updates, each of which reads its base (`ReadBaseStep`), reads the current
revision (`ReadCurrentStep`), rebases (`RebaseStep`), checks (`CheckStep`), appends (`CommitStep`) and makes its
correction (`CorrectStep`), interleaved with each other, with appends by other parts of the same file, with writes of
stored snapshots, which delete old changes of ephemeral parts (`WriterCommitStep`), and with whatever happens to the
cache of snapshots (`CacheStep`).

Each step reads one state of the file and of the cache, though in the code it may
span several `await`s: for the revision number, for a look into the cache, and for changes chunk by chunk. Nothing is
lost by that. Changes are only added at the end and deleted from the start, and snapshots that are cached are right,
so what such a read finds piece by piece it could have found at its beginning; and one that fails on the way is an
update that gives up (`GiveUp`).

`ServerReads` has the differences between revisions, by two tactics. `ServerSafety`
proves what holds in every run, `ServerProgress` that updates and writes can be finished from wherever they have got
to, and `ServerParts` what both mean for each kind of part. `BodyFits` adds what holds of
the log of a body even when something has gone wrong with it. `ServerRuns`, `ServerBodyRuns` and `ServerLateWrite`
have particular runs. `UpdateRetry` is the retry loop, `Validation` the check of a stored part, `Retention` the
history that ephemeral parts keep, which `ServerRetention` relates to the runs of the server, and `SnapshotManager`
with `SnapshotCoherence` the cache of snapshots as the code has it.

**Client.** `BodyClient` is the client's state machine, as a class whose handlers update its fields and are proved
against functions on values. `BodyClientSafety` proves what every handler keeps, and `Convergence` puts any number of
clients and the stepwise server together. `ConvergenceRuns` says what that means in terms of what clients send, and
has a run in which two clients diverge. `Delivery` proves that what a user types can always get into the log and back.

**Codec.** `CodecValues`, `CodecRegistry` and `Codec` are values, registry and coding functions; `CodecLaws`,
`CodecCoverage` and `CodecDecoding` prove their laws; `JsonTree` adds the JSON level.

## What was found

The model follows the code. In these places, the code does not do what one would like or what a comment says, and the
project has the exact condition, an input, or both.

- *Empty rebases.* When nothing is left of a rebased change, the server answers with an empty correction for the
  current revision, as if the client expected the current contents
  (`local-modules/@bayou/doc-server/BaseControl.js:1028`). The comment there is about changes that do the same thing,
  but a change also vanishes when what it deletes has been replaced (`ServerBodyRuns.EmptyReplyCanBeWrong`). This can
  happen to exactly those changes that insert nothing (`ServerBodyRuns.CanGoWrongExactly`). Exactly when the answer is
  right is stated for parts that merge (`ServerSafety.EmptyReplyUnmoved`), for the body (`ServerParts.BodyEmptyReply`)
  and for a client that gets it (`Convergence.AnswerDecides`). Convergence is proved under the hypothesis that such
  answers are given only to clients that expect the current contents (`Convergence.Converges`), and without it if
  every change that is sent inserts something (`ConvergenceRuns.ConvergesWhenInserting`). Otherwise clients can
  diverge (`ConvergenceRuns.ClientsDiverge`), and a client that has diverged may fail at a later change although
  nothing is wrong with the body on the server (`ConvergenceRuns.DivergedClientFails`).
- *The final newline.* Two valid body changes can each delete another one of two final newlines. The second one, once
  rebased, leaves a body without a final newline, and is appended without any check; from then on the document has no
  current snapshot (`ServerBodyRuns.RebasedBodyCanBreakLog`). A rebased change is valid exactly when the last that
  survives of the base and of both sides' insertions is a newline (`BodyPart.RebaseValidExactly`), and that is always
  so when clients leave the final newline alone (`ServerParts.BodyRuns`), unless first contents are rebased over first
  contents (`ServerBodyRuns.FirstContentsCanBreakLog`).
- *Late snapshot writes.* A pending write of a stored snapshot may replace a later one, since it only looks at the
  revision number of the file (`local-modules/@bayou/doc-server/BaseControl.js:1242-1247`). For an ephemeral part, the
  changes that it needs may be gone by then. It does no harm exactly when it is at most one period of 1000 revisions
  behind (`Retention.LateWriteBreaks`), and it can happen to the carets (`ServerLateWrite.CaretLateWrite`).
- *Requests during the initial retrieval.* The cache publishes the stored snapshot before it has snapshot 0, so a
  request for an early revision is answered with `null` even if all changes are there
  (`SnapshotCoherence.AnswerDuringRetrieval`).
- *The key `__proto__`.* A plain object that binds it can be encoded, but does not come back
  (`CodecCoverage.ProtoLost`); all other values do (`CodecLaws.RoundTripExactly`).
- *Fields of deleted carets.* A `setField` after the deletion of its caret is ignored among changes, but leaves a
  naked operation, and so an error, in documents (`CaretLaws.DeletedThenSet`). Caret composition is proved wherever
  applying both deltas in order is possible, with the exact condition for the rest (`CaretLaws.ComposeCorrect`).

## Modelling decisions

- A body is a sequence of elements (characters and embeds). Composition keeps a final retain, as the example in the
  documentation of `BodyDelta.compose()` does, and transformation drops it, as the test for an empty rebase needs it
  to. `BodyLaws.ChopSame` shows that a final retain never matters for what a delta does.
- All that is known of the difference of two bodies is that composing it with the older one gives the newer one; that
  one exists is proved.
- The clock of the retry loop and the outcome of each attempt are parameters of `UpdateRetry.Update`.
- A snapshot write and the deletions that go with it are one step, as they are one file operation in the code. Every
  step of the server works on one state of the file. Timeouts may end an update at any point (`GiveUp` in
  `ServerSteps`).
- A client that has failed may start again from a fresh snapshot (`Start` in `Convergence`).
- In the server's state machine, the cache is a map from revisions to contents, in which snapshots may be kept or
  dropped at any time; failures that the code caches are updates that give up.
- Class instances are given by the arguments that `deconstruct()` returns; that a class rebuilds an instance from
  these is a hypothesis built into the model.

## Model

| member | source | states |
|---|---|---|
| `BodyLaws.ComposeCorrect` | local-modules/@bayou/doc-common/BodyDelta.js:145-185 | applying a composition to any body has the effect of applying its two halves in order, and is possible whenever that is |
| `BodyLaws.TidyNormal` | local-modules/@bayou/doc-common/BodyDelta.js:145-150 | results have no neighbouring operations that could be merged, and no deletion before an insertion |
| `BodyLaws.ChopSame` | local-modules/@bayou/doc-common/BodyDelta.js:101-135 | dropping a final retain never changes what a delta does |
| `BodyTransform.TransformIsWeave` | local-modules/@bayou/doc-common/BodyDelta.js:101-135 | applying a delta and then another transformed over it gives the merge of the two, which is defined on its own, element by element and gap by gap; at each gap the insertions of the one that is first come first |
| `BodyTransform.Diamond` | local-modules/@bayou/doc-common/BodyDelta.js:101-135 | for any body and any two deltas that fit it, either order of application with the other one transformed reaches the same body |
| `BodyTransform.VanishesExactly` | local-modules/@bayou/doc-common/BodyDelta.js:101-135 | a transformed delta comes out empty exactly when it inserts nothing and deletes only what the other one deletes too |
| `BodyTransform.UnmovedExactly` | local-modules/@bayou/doc-common/BodyDelta.js:101-135 | after one change, a concurrent one that inserts nothing leaves the body alone exactly when it deletes only what the first one has deleted |
| `BodyTransform.MergeIsBodyExactly` | local-modules/@bayou/doc-common/BodyDelta.js:101-135 | a merge is a body exactly when what survives at its last place ends with a newline |
| `BodyDocument.DocumentExactly` | local-modules/@bayou/doc-common/BodyDelta.js:191-212 | the check of operations accepts exactly the deltas that only insert and whose body is empty or ends with a newline |
| `BodyDocument.ComposeDocumentExactly` | local-modules/@bayou/doc-common/BodyDelta.js:145-185 | composing onto a document succeeds exactly when the other delta stays within the body and leaves a proper one; the result is then a document for it |
| `BodyPart.DiffExists` | local-modules/@bayou/doc-common/BodyDelta.js:66-90 | the contract of `diff()` can always be met |
| `BodyPart.RebaseIsMerge` | local-modules/@bayou/doc-server/BodyControl.js:90-107 | a rebased change always fits the current body and makes it the merge of the client's change with all server changes, the latter first; it leaves a proper body exactly when that merge is one |
| `BodyPart.RebaseValidExactly` | local-modules/@bayou/doc-server/BodyControl.js:90-107 | a rebased change is valid exactly when the last that survives is a newline: the old element at its place if both sides keep it, or else the end of what the client inserts, or else of what the server does |
| `BodyPart.RebaseVanishes` | local-modules/@bayou/doc-server/BodyControl.js:90-107 | nothing is left of a rebased change exactly when it inserts nothing and deletes only what the server has deleted; the merge is then the current body |
| `BodyPart.VanishedIsExpected` | local-modules/@bayou/doc-server/BodyControl.js:90-107 | when nothing is left of a rebased change, its client expects the current body exactly when the server's changes, transformed over the client's, leave alone what it expects; if the server has only deleted, exactly when both have deleted the same |
| `BodyNewline.RebaseTame` | local-modules/@bayou/doc-server/BodyControl.js:90-107 | when no change reaches the final newline of its body, a rebased change does not either, and so is valid for the current body |
| `BodyFirstContents.FirstContentsBreak` | local-modules/@bayou/doc-server/BodyControl.js:90-107 | changes that are all valid and leave alone the final newline, if there is one, where they are made; one of them is rebased over the first contents of an empty body, and a later rebase then leaves no body |
| `BodyPart.RebaseCanBreakBody` | local-modules/@bayou/doc-server/BodyControl.js:90-107 | two valid changes whose rebase deletes the last newline that is left |
| `BodyPart.RebaseCanVanish` | local-modules/@bayou/doc-server/BodyControl.js:90-107 | two valid changes whose rebase is empty although the client does not expect the current body |
| `BodyPart.DeletionVanishes` | local-modules/@bayou/doc-server/BodyControl.js:90-107 | for every change that inserts nothing there is a valid one after which nothing is left of it, though its client does not expect the current body |
| `ChangeLog.ComposeChunk` | local-modules/@bayou/ot-common/BaseDelta.js:180-203 | the loop of `composeAll`, with its checks at every step, is a left fold that fails as soon as an intermediate result is no document |
| `Part.ComposeAllConcat` | local-modules/@bayou/ot-common/BaseDelta.js:180-203 | composing in several calls is the same as composing in one |
| `Part.ComposeAllDocument` | local-modules/@bayou/ot-common/BaseDelta.js:180-203 | for any part that obeys the laws: composing changes onto a document succeeds exactly when applying them in order does, with a document for the same contents |
| `Part.ComposeAllChanges` | local-modules/@bayou/ot-common/BaseDelta.js:180-203 | for any part that obeys the laws: composed changes do what the changes do in order |
| `BodyPart.OpsLawful` | local-modules/@bayou/ot-common/BaseDelta.js:180-203 | the body obeys the laws of composition |
| `PropertyPart.OpsLawful` | local-modules/@bayou/ot-common/BaseDelta.js:180-203 | the properties obey the laws of composition |
| `CaretPart.OpsLawful` | local-modules/@bayou/ot-common/BaseDelta.js:180-203 | the carets obey the laws of composition |
| `BodyPart.PartLawful` | local-modules/@bayou/ot-common/BaseSnapshot.js:236-248 | the laws of composition hold for the body; its law of differences is the contract of `diff()` itself, which `DiffExists` shows can be met |
| `PropertyPart.PartLawful` | local-modules/@bayou/ot-common/BaseSnapshot.js:236-248 | composing a snapshot with a difference to another gives the other (properties), whatever the order in which the snapshots list them; and rebasing merges |
| `CaretPart.PartLawful` | local-modules/@bayou/ot-common/BaseSnapshot.js:236-248 | composing a snapshot with a difference to another gives the other (carets), whatever the order in which the snapshots list them; and rebasing merges |
| `PropertyDelta.Compose` | local-modules/@bayou/doc-common/PropertyDelta.js:30-67 | the loop over an insertion-ordered map gives, operations and their order included, the composition that `ComposeCorrect` and `ComposeDocumentCorrect` are about |
| `PropertyDelta.ComposedInOrder` | local-modules/@bayou/doc-common/PropertyDelta.js:30-67 | the operations of a composed change are in the order in which their names occur first |
| `PropertyDelta.CheckDocument` | local-modules/@bayou/doc-common/PropertyDelta.js:75-99 | the document check accepts exactly lists of `set`s with distinct names |
| `PropertyDelta.ComposeCorrect` | local-modules/@bayou/doc-common/PropertyDelta.js:30-67 | applying a composed change is applying both in order; it mentions each of their names exactly once |
| `PropertyDelta.ComposeDocumentCorrect` | local-modules/@bayou/doc-common/PropertyDelta.js:30-67 | composing onto a document always gives a document, for the properties that applying the change gives |
| `PropertyDelta.ApplyByName` | local-modules/@bayou/doc-common/PropertyDelta.js:30-67 | for each name the last operation decides |
| `PropertySnapshot.BuildIndex` | local-modules/@bayou/doc-common/PropertySnapshot.js:29-58 | the loop of the constructor builds the index that `IndexMeaning` is about |
| `PropertySnapshot.IndexMeaning` | local-modules/@bayou/doc-common/PropertySnapshot.js:29-58 | the index binds exactly the names of the contents, each to its value |
| `PropertySnapshot.Equals` | local-modules/@bayou/doc-common/PropertySnapshot.js:93-117 | comparison by sizes and one-sided lookups decides equality of revision numbers and bindings |
| `JsMap.SameEntries` | local-modules/@bayou/doc-common/PropertySnapshot.js:93-117 | one-sided lookups between maps of equal size decide equality |
| `PropertySnapshot.Diff` | local-modules/@bayou/doc-common/PropertySnapshot.js:211-234 | the two loops collect the difference that `DifferenceCorrect` is about, in the same order |
| `PropertySnapshot.DifferenceCorrect` | local-modules/@bayou/doc-common/PropertySnapshot.js:211-234 | composing a snapshot with its difference to another gives the other; the difference mentions exactly the names whose bindings differ |
| `PropertySnapshot.WithPropertyCorrect` | local-modules/@bayou/doc-common/PropertySnapshot.js:177-185 | exactly one binding is set, and an instance that has it already is returned itself |
| `PropertySnapshot.WithoutPropertyCorrect` | local-modules/@bayou/doc-common/PropertySnapshot.js:194-201 | exactly one binding is removed, and an instance without it is returned itself |
| `PropertyPart.RebasedCorrect` | local-modules/@bayou/doc-server/PropertyControl.js:71-91 | rebasing never fails, and its result takes the current properties to those that the server changes make of the expected ones |
| `PropertyPart.RebaseIsMerge` | local-modules/@bayou/doc-server/PropertyControl.js:71-91 | name by name: what the server has touched since the base keeps its current value, everything else gets the client's; the change mentions only names of the client's change that the server has not touched |
| `CaretDelta.Compose` | local-modules/@bayou/doc-common/CaretDelta.js:30-111 | the loop over a map from carets to lists of operations gives, order included, the composition that `CaretLaws.ComposeCorrect` and `ComposeDocumentCorrect` are about |
| `CaretDelta.FoldInOrder` | local-modules/@bayou/doc-common/CaretDelta.js:30-111 | the carets of a composed change are in the order in which they occur first |
| `CaretDelta.AbsorbOp` | local-modules/@bayou/doc-common/CaretDelta.js:62-101 | what the branches for `setField` make of the operations collected for a caret, the search for one of the same field included, is the fold step that `CaretLaws.FoldStands` is about |
| `CaretDelta.CheckDocument` | local-modules/@bayou/doc-common/CaretDelta.js:119-144 | the document check accepts exactly lists of `add`s with distinct IDs |
| `CaretLaws.FoldStands` | local-modules/@bayou/doc-common/CaretDelta.js:30-111 | for every caret the loop keeps exactly one `add`, exactly one `delete`, or `setField`s of distinct fields, standing for the net effect |
| `CaretLaws.ComposedAfter` | local-modules/@bayou/doc-common/CaretDelta.js:30-111 | what a composed delta does to each caret is the net effect of its two halves |
| `CaretLaws.ComposeCorrect` | local-modules/@bayou/doc-common/CaretDelta.js:30-111 | a composed change applies, with the same result, wherever its halves apply in order; it applies elsewhere exactly when all offending fields were set on carets that it has deleted itself |
| `CaretLaws.ComposeDocumentCorrect` | local-modules/@bayou/doc-common/CaretDelta.js:30-111 | composing onto a document gives a document exactly when the change applies to its carets, and then one for the result |
| `CaretLaws.DeletedThenSet` | local-modules/@bayou/doc-common/CaretDelta.js:47-83 | a field set after a deletion: a naked operation and hence no document in document mode, ignored otherwise |
| `CaretSnapshot.BuildIndex` | local-modules/@bayou/doc-common/CaretSnapshot.js:31-58 | the loop of the constructor builds the index that `IndexMeaning` is about |
| `CaretSnapshot.IndexMeaning` | local-modules/@bayou/doc-common/CaretSnapshot.js:31-58 | the index binds exactly the carets of the contents |
| `CaretSnapshot.Equals` | local-modules/@bayou/doc-common/CaretSnapshot.js:130-155 | comparison by sizes and one-sided lookups decides equality of revision numbers and carets |
| `CaretSnapshot.Diff` | local-modules/@bayou/doc-common/CaretSnapshot.js:236-270 | the two loops collect the difference that `DifferenceCorrect` is about, field by field where a caret is in both snapshots |
| `CaretSnapshot.DifferenceCorrect` | local-modules/@bayou/doc-common/CaretSnapshot.js:236-270 | composing a snapshot with its difference to another gives the other, with added, updated and removed carets; the difference mentions exactly the carets that differ |
| `CaretSnapshot.WithCaretCorrect` | local-modules/@bayou/doc-common/CaretSnapshot.js:193-201 | exactly one caret is bound, and an instance that has it already is returned itself |
| `CaretSnapshot.WithoutCaretCorrect` | local-modules/@bayou/doc-common/CaretSnapshot.js:214-225 | exactly one caret is removed, and an instance without it is returned itself |
| `CaretSnapshot.ComposeCaret` | local-modules/@bayou/doc-common/Caret.js:214-231 | composition is refused exactly when an operation is no `setField` or is for another caret; otherwise the later of two operations on a field wins |
| `CaretSnapshot.DiffFields` | local-modules/@bayou/doc-common/Caret.js:286-300 | the loop over the fields of a caret collects the difference that `FieldDiffCorrect` is about |
| `CaretSnapshot.FieldDiffCorrect` | local-modules/@bayou/doc-common/Caret.js:264-300 | the difference of two carets sets exactly the fields that differ, and takes the one to the other |
| `CaretPart.RebaseDefined` | local-modules/@bayou/doc-server/CaretControl.js:150-173 | a caret rebase succeeds exactly when no caret that the client has lost was, at some revision since the base, only updated by the server |
| `CaretPart.RebaseIsMerge` | local-modules/@bayou/doc-server/CaretControl.js:150-173 | caret by caret: an addition or deletion by the server decides; otherwise fields set by the server win and the client's other fields survive |
| `CaretControl.ChangeForUpdateCorrect` | local-modules/@bayou/doc-server/CaretControl.js:87-105 | the change moves the caret, and leaves its author, its color and all other carets alone; it is refused exactly for an unknown caret |
| `CaretControl.RemoveIdle` | local-modules/@bayou/doc-server/CaretControl.js:210-253 | the change removes exactly the carets whose last activity was before the given time, and leaves all others as they were; there is none exactly when no caret is that old |
| `CaretControl.DropIdle` | local-modules/@bayou/doc-server/CaretControl.js:228-236 | the loop leaves exactly the carets whose last activity was not before the given time, and counts none exactly when these are all |
| `CaretControl.MovedStays` | local-modules/@bayou/doc-server/CaretControl.js:87-253 | a caret that has just been moved survives a removal of idle carets exactly if the given time is not after that of the move; all others fare as without the move |
| `CaretPart.HasRebaseExactly` | local-modules/@bayou/doc-server/CaretControl.js:150-173 | a rebase of a caret change has a result exactly if what happened since does not only update a caret that the client has removed |
| `ChangeLog.GetChangeRange` | local-modules/@bayou/doc-server/BaseControl.js:1119-1167 | a strict read gives exactly the requested consecutive revisions or lists exactly the missing ones; otherwise changes may be missing at the start of the range only |
| `ChangeLog.GetChange` | local-modules/@bayou/doc-server/BaseControl.js:311-320 | a single change, and the three ways in which it can be had or not |
| `ChangeLog.GetComposedChanges` | local-modules/@bayou/doc-server/BaseControl.js:400-453 | reading and composing in chunks is one left fold over all changes of the range; no chunk is ever too large; a range turned around gives the base delta |
| `ServerReads.ComposedLeads` | local-modules/@bayou/doc-server/BaseControl.js:482-497 | composed changes lead from the base revision to the newer one, as the log of the part has them |
| `ServerReads.GetDiff` | local-modules/@bayou/doc-server/BaseControl.js:482-507 | by either tactic, the result leads from the base revision to exactly the newer one, also after old changes have been deleted; there is one exactly if the changes after the base, or for the other tactic both snapshots, can be had |
| `ServerReads.DiffLeads` | local-modules/@bayou/doc-server/BaseControl.js:482-507 | whatever the server may give as a difference, by either tactic, leads from its base to its revision |
| `ServerReads.CanDiffExactly` | local-modules/@bayou/doc-server/BaseControl.js:482-507 | a difference to a revision with contents can be made from any base if the part is durable, and otherwise exactly if no change that the tactic needs has been deleted |
| `ServerReads.DiffStays` | local-modules/@bayou/doc-server/BaseControl.js:482-507 | what may be a difference of a durable part stays one while the part grows, so that it does not matter when it arrives |
| `ServerReads.GetChangeAfter` | local-modules/@bayou/doc-server/BaseControl.js:355-367 | the result is for a later revision than the base, and leads to it, also after old changes have been deleted; and exactly when there is one |
| `ServerSafety.StepInv` | local-modules/@bayou/doc-server/BaseControl.js:1016-1062 | every step of a durable or ephemeral part keeps the invariant |
| `ServerSafety.SnapshotIsAt` | local-modules/@bayou/doc-server/BaseControl.js:528-547 | a snapshot that can be had is what the log says, whichever cached one it starts from; a durable part has one for exactly the revisions with contents |
| `ServerSafety.RunInv` | local-modules/@bayou/doc-server/BaseControl.js:196-262 | in every state of every run the file holds exactly the revisions up to the current one, from revision 0 on if the part is durable, with the deltas first written; stored and cached snapshots and those held by updates are what the log says |
| `ServerSafety.StepAppends` | local-modules/@bayou/doc-server/BaseControl.js:714-736 | one step changes nothing of the part's data, or appends the one change that an update was about to append, or, for an ephemeral part only, deletes old changes; a lost race changes nothing |
| `ServerSafety.LogOnlyGrows` | local-modules/@bayou/doc-server/BaseControl.js:196-262 | history is never rewritten: a change that is still stored is the one first written, and only an ephemeral part ever loses any |
| `ServerSafety.CorrectionIsRight` | local-modules/@bayou/doc-server/BaseControl.js:1037-1051 | an update that has returned after appending has appended exactly one change, its own rebased over exactly what came between; composing its correction onto the expected snapshot gives the server's snapshot at the revision of the correction; that it can return is in `ServerProgress.CanReturn` |
| `ServerSafety.EmptyReplyIsRight` | local-modules/@bayou/doc-server/BaseControl.js:1028-1035 | an update that returns without appending is right exactly when its client already expects the contents at the revision of the reply |
| `ServerSafety.EmptyReplyUnmoved` | local-modules/@bayou/doc-server/BaseControl.js:1028-1035 | where rebasing merges, that is exactly when the changes since the client's base, applied to what the client expects, leave it as it is |
| `ServerSafety.AppendHealthy` | local-modules/@bayou/doc-server/BaseControl.js:229-262 | appending leaves the log with contents exactly when the change is valid for the current ones, as a change given against the current revision always is |
| `ServerSafety.RunHealthy` | local-modules/@bayou/doc-server/BaseControl.js:1016-1062 | where rebasing merges, every revision of every run has contents |
| `ServerRuns.AppendUnopposed` | local-modules/@bayou/doc-server/BaseControl.js:660-736 | a valid change with which nothing interferes is appended as given; if the part is ephemeral, provided that the current snapshot can be had, which `ServerRetention.FreshReads` is about |
| `ServerRuns.AppendRebased` | local-modules/@bayou/doc-server/BaseControl.js:660-736 | a change against an earlier revision, with which nothing interferes, is rebased and appended, unless nothing is left of it; if the part is ephemeral, provided that the two snapshots that it takes and the changes in between can be had |
| `ServerProgress.CorrectExactly` | local-modules/@bayou/doc-server/BaseControl.js:1045-1051 | an update that has appended its rebased change gets a correction that leads from the expected snapshot to that of the revision it made, and fails exactly if that one cannot be read |
| `ServerProgress.CanCorrect` | local-modules/@bayou/doc-server/BaseControl.js:1045-1051 | there is such a step whenever that revision can be read |
| `ServerProgress.DurableCorrects` | local-modules/@bayou/doc-server/BaseControl.js:1045-1051 | in a durable part it always can be if the log has contents |
| `ServerProgress.ReplyRebased` | local-modules/@bayou/doc-server/BaseControl.js:660-1051 | a change against an earlier revision that is valid once rebased is appended and answered with its revision and a correction that leads from what its client expects to the contents there |
| `ServerProgress.CommitExactly` | local-modules/@bayou/doc-server/BaseControl.js:229-262 | an append comes about exactly if the file is still at the revision that it was seen at; otherwise nothing changes, and the update starts over |
| `ServerProgress.RaceLost` | local-modules/@bayou/doc-server/BaseControl.js:229-262 | a change of another part of the file in between makes an append lose its race, with no change to the part |
| `ServerProgress.CanReturn` | local-modules/@bayou/doc-server/BaseControl.js:660-1062 | wherever an update has got to, whatever it has read, and even if it is about to lose a race, it can still return by steps of its own if its request can be carried out; its reply is right if it has appended a change |
| `ServerProgress.CanStore` | local-modules/@bayou/doc-server/BaseControl.js:1185-1262 | a stored snapshot that has been asked for can be written; the file then holds the contents of that revision, and exactly those changes of an ephemeral part that are at most a thousand revisions older |
| `ServerProgress.KeepReads` | local-modules/@bayou/doc-server/BaseControl.js:528-547 | a snapshot that is kept can be read from then on, whatever has been deleted, and all that could be read still can, with the same result |
| `ServerBodyRuns.EmptyReplyCanBeWrong` | local-modules/@bayou/doc-server/BaseControl.js:1028-1035 | a run for a body that ends with a wrong empty correction |
| `ServerBodyRuns.CanGoWrongExactly` | local-modules/@bayou/doc-server/BaseControl.js:1028-1035 | a valid change of a body, not empty, is answered with a wrong empty correction in some run exactly if it inserts nothing |
| `ServerBodyRuns.RebasedBodyCanBreakLog` | local-modules/@bayou/doc-server/BaseControl.js:1016-1062 | a run for a body that ends with a revision without contents |
| `ServerBodyRuns.FirstContentsCanBreakLog` | local-modules/@bayou/doc-server/BaseControl.js:1016-1062 | a run that ends with a revision without contents although every client leaves the final newline alone, as first contents have been rebased over first contents |
| `ServerParts.PropertyRuns` | local-modules/@bayou/doc-server/BaseControl.js:660-736 | for properties, which are durable: in every run every change is still stored as first written, every revision has contents, and every update that returns after appending has appended one change and has a right correction |
| `ServerParts.CaretRuns` | local-modules/@bayou/doc-server/BaseControl.js:660-736 | for carets, which are ephemeral: in every run exactly the changes from one period before the latest stored snapshot on are still stored, as first written; every revision has contents, and every update that returns after appending has appended one change and has a right correction |
| `ServerParts.PropertyAnswers` | local-modules/@bayou/doc-server/BaseControl.js:660-1062 | for properties: in every state of every run, every update that has not failed can still return |
| `ServerParts.CaretAnswers` | local-modules/@bayou/doc-server/BaseControl.js:660-1062 | for carets: in every state of every run, every update that has not failed can still return, if what it takes can be read and its client has not removed a caret that others have only updated since |
| `ServerParts.BodyAnswers` | local-modules/@bayou/doc-server/BaseControl.js:660-1062 | for the body: in every state with contents of every run, every update that has not failed can still return, if its merge with what came between is a body |
| `ServerParts.CaretDifferences` | local-modules/@bayou/doc-server/BaseControl.js:482-507 | for carets, in every run, every difference that the server gives leads from its base to its revision |
| `ServerParts.CaretHistory` | local-modules/@bayou/doc-server/BaseControl.js:1185-1262 | for carets, in every run in which stored snapshots are written at most one period late: the check accepts the part, and every revision from the stored snapshot on can be had again from that snapshot |
| `ServerParts.BodyAppendIsMerge` | local-modules/@bayou/doc-server/BaseControl.js:660-736 | in every run, an appended rebased body change has made the body the merge of the client's change with everything between its base and that moment |
| `BodyFits.StepFits` | local-modules/@bayou/doc-server/BaseControl.js:1016-1062 | every step of the server keeps it so that each change in the log of a body stays within the body before it, and that this one has contents |
| `BodyFits.BrokenIsLast` | local-modules/@bayou/doc-server/BaseControl.js:1016-1062 | hence a revision without contents is the last one, and the changes that lead there do compose, but leave no body |
| `ServerParts.BodyEmptyReply` | local-modules/@bayou/doc-server/BaseControl.js:1028-1035 | in every run, when an update of the body has returned without appending: its client has inserted nothing and deleted only what was deleted since its base; and in terms of both sides' changes, exactly when the reply is right |
| `ServerParts.BodyRuns` | local-modules/@bayou/doc-server/BaseControl.js:660-736 | in every run in which the clients' changes leave the final newline of the body alone, so does every change in the log, and every revision has contents; nothing may be rebased over the first contents of an empty body, as otherwise this is false (`BodyFirstContents.FirstContentsBreak`) |
| `UpdateRetry.Update` | local-modules/@bayou/doc-server/BaseControl.js:712-736 | the retry loop makes at most 8 attempts, each before the deadline, and ends with the first success or when the time is over |
| `UpdateRetry.EightAreEnough` | local-modules/@bayou/doc-server/BaseControl.js:712-736 | eight delays take longer than any timeout, and seven do not |
| `UpdateRetry.Delays` | local-modules/@bayou/doc-server/BaseControl.js:712-736 | the delays between attempts: 50 msec, five times as much after each attempt, and at most 15 seconds |
| `Validation.ValidationStatus` | local-modules/@bayou/doc-server/BaseControl.js:909-999 | the check accepts exactly: for a durable part, all changes up to the current revision, whatever snapshot is stored; for an ephemeral one, all changes after its stored snapshot, and older ones that are missing at the start of each stretch of a thousand only; in both cases no stored snapshot from the future, and no changes past the current revision as far as it looks |
| `ServerRetention.DurableInRuns` | local-modules/@bayou/doc-server/BaseControl.js:909-999 | in every run of a durable part the check accepts what is stored, and it would not if any one change were lost, whatever snapshot is stored |
| `Retention.WriteKeepsHistory` | local-modules/@bayou/doc-server/BaseControl.js:1216-1262 | a snapshot write leaves all changes after its snapshot in place exactly when it is at most one period behind |
| `Retention.LateWriteBreaks` | local-modules/@bayou/doc-server/BaseControl.js:1216-1262 | after a snapshot write the part is accepted by the check exactly when the write was at most one period behind |
| `Retention.RunInv` | local-modules/@bayou/doc-server/BaseControl.js:1185-1262 | in every run with prompt writes, the stored changes are exactly those from a bound on, with the deltas first written |
| `Retention.HistoryIsKept` | local-modules/@bayou/doc-server/BaseControl.js:1185-1262 | in every run with prompt writes: what is missing is a prefix, the part is accepted by the check, and every revision from the stored snapshot on can be rebuilt from it |
| `ServerRetention.StepKept` | local-modules/@bayou/doc-server/BaseControl.js:1185-1262 | a step of the server of an ephemeral part does to its history what the model of retention says: nothing, or an append, or the write of a snapshot of a revision that has been asked for |
| `ServerRetention.HistoryInRuns` | local-modules/@bayou/doc-server/BaseControl.js:1185-1262 | hence in every run of the interleaved server with prompt writes: what is missing is a prefix, the part is accepted by the check, and every revision from the stored snapshot on can be rebuilt |
| `ServerRetention.FreshReads` | local-modules/@bayou/doc-server/BaseControl.js:528-547 | in such runs, a server that starts with the stored snapshot only can read exactly the revisions with contents, from the stored one on |
| `ServerRetention.FreshReachable` | local-modules/@bayou/doc-server/BaseControl.js:528-547 | from every state of a run, a server can come to have only the stored snapshot in its cache |
| `ServerRetention.DiffsFromStored` | local-modules/@bayou/doc-server/BaseControl.js:482-507 | in such runs, such a server can make the difference between any two revisions, from the stored one on, of which the newer has contents |
| `Retention.LateWriteHappens` | local-modules/@bayou/doc-server/BaseControl.js:1242-1247 | a run in which a late write makes the part unacceptable |
| `ServerLateWrite.CaretLateWrite` | local-modules/@bayou/doc-server/BaseControl.js:1242-1247 | a run of the server of the carets, with 3000 changes and two writes, which ends with a part that the check does not accept |
| `UpdateRetry.Clamp` | local-modules/@bayou/doc-common/Timeouts.js:40-54 | a timeout becomes the nearest one between one second and one minute, and one minute if there is none |
| `SnapshotManager.SnapshotManager.constructor` | local-modules/@bayou/doc-server/SnapshotManager.js:20-50 | an empty cache, with no retrieval that has failed |
| `SnapshotManager.SnapshotManager.Clear` | local-modules/@bayou/doc-server/SnapshotManager.js:56-59 | the cache is emptied |
| `SnapshotManager.SnapshotManager.PublishStored` | local-modules/@bayou/doc-server/SnapshotManager.js:85-89 | the stored snapshot is put into the cache |
| `SnapshotManager.SnapshotManager.Retrieve` | local-modules/@bayou/doc-server/SnapshotManager.js:81-99 | the initial retrieval: the stored snapshot first, then snapshot 0; and whether it fails |
| `SnapshotManager.SnapshotManager.MakeSnapshot0` | local-modules/@bayou/doc-server/SnapshotManager.js:179-204 | snapshot 0 is made from change 0, if that is there and not cached; it is an error if the change makes no document |
| `SnapshotManager.SnapshotManager.FindBase` | local-modules/@bayou/doc-server/SnapshotManager.js:114-126 | the search backward finds the latest cached revision |
| `SnapshotManager.SnapshotManager.MakeSnapshot` | local-modules/@bayou/doc-server/SnapshotManager.js:154-167 | a snapshot from an earlier one, for `SnapshotCoherence.MakeRight` |
| `SnapshotManager.SnapshotManager.GetSnapshot` | local-modules/@bayou/doc-server/SnapshotManager.js:73-142 | the answer to a request and the whole cache after it, for `SnapshotCoherence.RequestRight` and `AnswerExactly`; a failed retrieval fails this request and all later ones that find the cache empty |
| `SnapshotCoherence.MakeRight` | local-modules/@bayou/doc-server/SnapshotManager.js:154-167 | a snapshot made from an earlier one is right, and is made whenever the changes are there and the revision has contents |
| `SnapshotCoherence.AnswerRight` | local-modules/@bayou/doc-server/SnapshotManager.js:109-142 | whichever cached base is used, answers are the contents that the log defines, also for ephemeral parts |
| `SnapshotCoherence.NeverFails` | local-modules/@bayou/doc-server/SnapshotManager.js:179-204 | as change 0 is empty, snapshot 0 can always be made, and the initial retrieval does not fail |
| `SnapshotCoherence.RequestRight` | local-modules/@bayou/doc-server/SnapshotManager.js:73-142 | an answer that is a snapshot is right, whatever changes have been deleted; while none has been, a base is always found, and the answer is a snapshot exactly for revisions with contents |
| `SnapshotCoherence.AnswerExactly` | local-modules/@bayou/doc-server/SnapshotManager.js:109-142 | whatever has been deleted, the answer is a snapshot exactly if the revision has contents and no change after the latest cached snapshot up to it has been deleted; and there is none exactly if nothing is cached up to it |
| `SnapshotCoherence.RunInv` | local-modules/@bayou/doc-server/SnapshotManager.js:73-142 | for every sequence of appends, deletions of old changes, clears and requests, each cached snapshot is what the log says, and the initial retrieval never fails |
| `SnapshotCoherence.EveryAnswerRight` | local-modules/@bayou/doc-server/SnapshotManager.js:73-142 | after every such sequence, an answer that is a snapshot is what the log says; as long as nothing has been deleted, it is one exactly when the revision has contents |
| `SnapshotCoherence.EveryRequestFinds` | local-modules/@bayou/doc-server/SnapshotManager.js:73-142 | after every such sequence, also of an ephemeral part: a request is answered with a right snapshot exactly if the revision has contents and can be reached from the latest cached snapshot up to it |
| `SnapshotCoherence.SameAnswerAgain` | local-modules/@bayou/doc-server/SnapshotManager.js:109-142 | the same request gets the same answer again, whatever has been appended, deleted or asked for meanwhile, until the cache is cleared |
| `SnapshotCoherence.FirstRequestFinds` | local-modules/@bayou/doc-server/SnapshotManager.js:73-142 | also of an ephemeral part, a first request finds exactly the revisions with contents from the stored snapshot on, if no change after that has been deleted |
| `SnapshotCoherence.AnswersAfterClear` | local-modules/@bayou/doc-server/SnapshotManager.js:109-142 | once changes have been deleted, a cleared cache answers exactly the requests from the stored revision on, and none if nothing is stored |
| `SnapshotCoherence.AnswerDuringRetrieval` | local-modules/@bayou/doc-server/SnapshotManager.js:81-112 | during the initial retrieval a request is answered with `null` exactly when it is for a revision before the stored one |
| `BodyClient.BodyClient.constructor` | local-modules/@bayou/doc-client/BodyClient.js:743-829 | a client that has got its first snapshot is idle and shows it, with no events |
| `BodyClient.BodyClient.ConsumeLocalChanges` | local-modules/@bayou/doc-client/BodyClient.js:1249-1272 | the loop gives, and leaves, what `ConsumeLeads` is about |
| `BodyClient.BodyClient.UpdateWith` | local-modules/@bayou/doc-client/BodyClient.js:1367-1397 | the new snapshot and what the editor shows and reports, and all cases of failure, in which the rest of the client is as before |
| `BodyClientSafety.UpdateFailsExactly` | local-modules/@bayou/doc-client/BodyClient.js:1367-1397 | exactly when the update of a snapshot fails, and what it gives otherwise |
| `BodyClient.BodyClient.HandleGotChangeAfter` | local-modules/@bayou/doc-client/BodyClient.js:859-880 | the whole new state of the client after a server change, for `GotChangeAfterInv` |
| `BodyClient.BodyClient.HandleGotQuillEvent` | local-modules/@bayou/doc-client/BodyClient.js:888-950 | the whole new state of the client after an editor event, for `GotQuillEventInv` and `NoticesLead` |
| `BodyClient.BodyClient.HandleWantToUpdate` | local-modules/@bayou/doc-client/BodyClient.js:688-736 | the whole new state of the client, for `WantToUpdateInv` and `WantToUpdateSends`; a change is sent exactly when the client then waits for the answer to it |
| `BodyClient.BodyClient.HandleGotUpdate` | local-modules/@bayou/doc-client/BodyClient.js:1033-1144 | the whole new state of the client after an answer, in its three cases, for `GotUpdateInv` |
| `BodyClientSafety.ConsumeLeads` | local-modules/@bayou/doc-client/BodyClient.js:1249-1272 | what is consumed leads from the old base to a new one, and what is left from there to what the editor shows; the event of our own at which it stops is skipped |
| `BodyClientSafety.TypeInv` | local-modules/@bayou/doc-client/BodyClient.js:888-950 | the invariant survives any edit of the user, at any time; the edit is the last of those pending |
| `BodyClientSafety.GotChangeAfterInv` | local-modules/@bayou/doc-client/BodyClient.js:859-880 | integrating a server change moves snapshot and editor together, and leaves an event of our own; it fails exactly when the change does not lead to a body that is not empty, and other clients than idle ones are left as they are |
| `BodyClientSafety.GotQuillEventInv` | local-modules/@bayou/doc-client/BodyClient.js:888-950 | skipping events of our own keeps the invariant, and never fails |
| `BodyClientSafety.NoticesLead` | local-modules/@bayou/doc-client/BodyClient.js:888-950 | noticing events takes selections and our own changes off the chain up to the first edit of the user, which is then being collected with all that follows; without an edit, the client ends idle with nothing on the chain |
| `BodyClientSafety.WantToUpdateInv` | local-modules/@bayou/doc-client/BodyClient.js:688-736 | there always is something collected, so this never fails, and sending it leaves snapshot and editor alone |
| `BodyClientSafety.WantToUpdateSends` | local-modules/@bayou/doc-client/BodyClient.js:688-736 | all edits of the user up to the next change of our own are sent, as one change that takes the snapshot to what they lead to, unless they come to nothing; exactly the events after that change are left |
| `BodyClientSafety.WantToUpdateSendsAll` | local-modules/@bayou/doc-client/BodyClient.js:688-736 | if all text changes are those of the user, nothing is pending afterwards, and what is sent takes the snapshot to what the editor shows |
| `BodyClientSafety.SeveralPeopleInv` | local-modules/@bayou/doc-client/BodyClient.js:1087-1143 | the rebase of local edits underneath a correction: the editor again shows the new snapshot with the moved edits on top, which is the merge of both with the server's insertions first; it fails exactly when the correction does not lead to a body that is not empty |
| `BodyClientSafety.GotUpdateInv` | local-modules/@bayou/doc-client/BodyClient.js:1033-1144 | every case of an answer keeps the invariant; the new snapshot is the expected one with the correction, the editor shows that or its merge with pending edits, and the client fails exactly when it is no body or empty |
| `BodyClientSafety.EditorIsRight` | local-modules/@bayou/doc-client/BodyClient.js:743-1144 | in every reachable state the editor shows the snapshot, then the change in flight, then the user's pending edits, and the event chain has one of three shapes; the exact inputs are given that make a client fail instead |
| `Convergence.AllowedInv` | local-modules/@bayou/doc-client/BodyClient.js:688-1144 | supposing that empty answers have been right, every move of any client or of the server keeps the invariant of the whole system, and a client fails only by an error of its own, or if the body is empty at a later revision or has no contents there |
| `Convergence.AnswerDecides` | local-modules/@bayou/doc-client/BodyClient.js:1033-1080 | for a client whose snapshot was right: an answer makes it fail exactly when the result that it has come to is empty; otherwise its new snapshot is right exactly when a change was appended for it or it did expect the contents at the revision of the reply |
| `Convergence.PullInv` | local-modules/@bayou/doc-client/BodyClient.js:859-880 | for a client whose snapshot was right: a change that the server gives as a difference makes it fail exactly when the body at its revision is empty or has no contents; otherwise the client is then at that revision |
| `Convergence.SnapshotsAreRevisions` | local-modules/@bayou/doc-client/BodyClient.js:1066-1143 | in every run of any number of clients and the stepwise server, a snapshot labelled with a revision is the log up to that revision |
| `Convergence.Converges` | local-modules/@bayou/doc-client/BodyClient.js:1066-1143 | two quiet clients at the same revision show the same body, that of the server's log |
| `Delivery.EditsCollected` | local-modules/@bayou/doc-client/BodyClient.js:888-950 | in every run, an idle client whose user has typed something comes to collect it, with no edit lost |
| `Delivery.EditsArrive` | local-modules/@bayou/doc-client/BodyClient.js:688-1144 | in every run, what a client has collected can be sent, appended and answered, as long as the body has contents and the merge is a body: the log then ends with the merge of it and what came between, and the client shows that, with no edit pending; nothing is appended only if the change inserts nothing |
| `Delivery.ComesToNothing` | local-modules/@bayou/doc-client/BodyClient.js:688-736 | a collecting client whose edits come to nothing goes back to being idle, with nothing pending and nothing sent |
| `Delivery.SelectionPasses` | local-modules/@bayou/doc-client/BodyClient.js:888-950 | a selection in the editor of an idle client with an empty chain is taken off the chain again when it is noticed, and leaves no trace |
| `Delivery.AnswerComes` | local-modules/@bayou/doc-client/BodyClient.js:1033-1144 | in every run, a client that waits for an answer can still get it, wherever the server has got to and whatever its user has typed since, unless the update has failed; the client is then idle at a revision that is not earlier, or has failed because what it came to is empty |
| `Delivery.CatchesUp` | local-modules/@bayou/doc-client/BodyClient.js:859-880 | in every run, an idle client with nothing pending can come to show the last revision of the log, if that has contents that are not empty |
| `Delivery.StartsAgain` | local-modules/@bayou/doc-client/BodyClient.js:743-829 | and so can a client that has failed or has not started yet |
| `ConvergenceRuns.ConvergesWhenInserting` | local-modules/@bayou/doc-client/BodyClient.js:1066-1143 | if every change that is sent inserts something, quiet clients at the same revision show the same body in every run, with no hypothesis about the server |
| `ConvergenceRuns.NobodyFails` | local-modules/@bayou/doc-client/BodyClient.js:1033-1144 | if clients leave the final newline alone, and empty answers have been right, answers and pulled changes never make a client fail |
| `ConvergenceRuns.NobodyFailsWhenInserting` | local-modules/@bayou/doc-client/BodyClient.js:1033-1144 | if every change that is sent leaves the final newline alone and inserts something, answers and pulled changes never make a client fail |
| `ConvergenceRuns.DivergedClientFails` | local-modules/@bayou/doc-client/BodyClient.js:859-880 | a run in which every change leaves the final newline alone, and a client that has got a wrong empty answer fails when it pulls the next change, although the server has a body |
| `ConvergenceRuns.ClientsDiverge` | local-modules/@bayou/doc-client/BodyClient.js:1033-1060 | a run that ends with two quiet clients at the same revision that show different bodies, one of which has got an empty correction that is wrong |
| `CodecRegistry.Registry.constructor` | local-modules/@bayou/codec/Registry.js:18-56 | the special codecs are registered, in order |
| `CodecRegistry.Registry.Freeze` | local-modules/@bayou/codec/Registry.js:62-64 | no registrations from then on |
| `CodecRegistry.Registry.RegisterCodec` | local-modules/@bayou/codec/Registry.js:83-112 | a registration is refused exactly when frozen or when the tag is taken; what registrations keep |
| `CodecRegistry.Registry.FindForValue` | local-modules/@bayou/codec/Registry.js:148-184 | the loop over the listed codecs finds the only applicable one, or gives one of three errors, for `FoundForValue` |
| `CodecRegistry.FoundForValue` | local-modules/@bayou/codec/Registry.js:148-184 | the codec found can encode the value, is the only listed one that can, and is the one under its tag |
| `CodecLaws.RegistryGood` | local-modules/@bayou/codec/Registry.js:83-112 | every registry built by registering classes meets the hypotheses of the laws |
| `CodecLaws.TagSelects` | local-modules/@bayou/codec/Registry.js:124-138 | the tag of an encoded value selects the very codec that was found for the value |
| `CodecLaws.WrapKeepsTag` | local-modules/@bayou/codec/ItemCodec.js:352-379 | a wrapped result has the codec's tag |
| `CodecValues.SortSorted` | local-modules/@bayou/codec/SpecialCodecs.js:182-189 | keys are sorted, and nothing is lost or added |
| `CodecValues.LessExactly` | local-modules/@bayou/codec/SpecialCodecs.js:182-189 | the order of keys: a proper prefix comes first, and otherwise the key with the smaller character where they first differ |
| `CodecLaws.RoundTripPairs` | local-modules/@bayou/codec/SpecialCodecs.js:164-173 | the pairs of an object are decoded one after the other, each to a new key |
| `CodecLaws.DecodedNoProto` | local-modules/@bayou/codec/SpecialCodecs.js:164-173 | no decoded value binds the key `__proto__`, whatever the payload |
| `CodecCoverage.ProtoLost` | local-modules/@bayou/codec/SpecialCodecs.js:164-173 | an object that comes back without one of its bindings, and without an error |
| `CodecDecoding.LastPairDecides` | local-modules/@bayou/codec/SpecialCodecs.js:164-173 | a decoded object binds a key to what the last of its pairs with that key decodes to, whatever payload the pairs come from |
| `CodecCoverage.EncodableExactly` | local-modules/@bayou/codec/Codec.js:131-134 | exactly the values made of scalars, regular arrays, plain objects and instances of registered classes can be encoded, to any depth, with a unique codec at each level |
| `CodecDecoding.DecodableExactly` | local-modules/@bayou/codec/Codec.js:63-66 | exactly these payloads can be decoded, whether or not an encoding has made them: scalars, arrays, calls for registered classes, and objects given as pairs of a key and a value, of which the one for the special key must be a scalar other than `null` |
| `CodecDecoding.DecodedComesBack` | local-modules/@bayou/codec/Codec.js:63-66 | whatever has been decoded, from whatever payload, can be encoded, and then comes back with sorted keys |
| `CodecLaws.RoundTripExactly` | local-modules/@bayou/codec/Codec.js:63-66 | decoding an encoded value gives it back with sorted keys, exactly when no plain object in it binds `__proto__` |
| `CodecLaws.EncodeNorm` | local-modules/@bayou/codec/Codec.js:131-134 | the order of keys makes no difference to an encoding |
| `CodecLaws.Canonical` | local-modules/@bayou/codec/Codec.js:131-134 | two values have the same encoding exactly when they are equal, whatever the order of keys |
| `CodecValues.NormIsSame` | local-modules/@bayou/codec/Codec.js:131-134 | equality up to key order, defined on its own, is equality of the forms with sorted keys |
| `JsonTree.JsonRoundTrip` | local-modules/@bayou/codec/Codec.js:80-82 | what is written as JSON is read back under the same condition, and equal values, and only these, are written alike |
| `JsonTree.ReviveUndoes` | local-modules/@bayou/codec/ConstructorCall.js:29-45 | reviving undoes the JSON form of every payload that encoding can make |
| `JsonTree.ReviveExactly` | local-modules/@bayou/codec/ConstructorCall.js:29-45 | reviving accepts exactly the trees whose objects all have a single label bound to an array, and gives the payload with that JSON form |
| `JsonTree.EncodedSurvives` | local-modules/@bayou/codec/ConstructorCall.js:92-96 | every encoded value survives the way to JSON and back |
| `Codec.LabelExactly` | local-modules/@bayou/util-core/CoreTypecheck.js:80-87 | labels are like identifiers, except that dashes and dots may occur anywhere |

## Left out

- BodyTransform.Diamond: operations have no attributes; quill-delta, whose algorithms merge them, is not part of this model.
- BodyPart.PartLawful: the text algorithm behind the body's `diff()` is not modelled, only its promise, because that is all the code relies on.
- BodyDocument.DocumentExactly: `BodySnapshot` also compares the document's length in graphemes with what retains count; the library that counts them is not part of this model.
- Convergence.AllowedInv: supposes that an empty answer to an update is right, as the next two do.
- Convergence.AnswerDecides: is about a client whose snapshot was right before, as `Convergence.PullInv` is; with a wrong one, a client may fail at any later change (`ConvergenceRuns.DivergedClientFails`).
- ConvergenceRuns.NobodyFails: supposes that empty answers are right; without that it is false (`ConvergenceRuns.DivergedClientFails`), unless all changes insert something (`ConvergenceRuns.NobodyFailsWhenInserting`).
- Convergence.SnapshotsAreRevisions: supposes that an empty answer to an update is right.
- Convergence.Converges: it supposes that an empty answer to an update is right; without that it is false (`ConvergenceRuns.ClientsDiverge`), unless all changes insert something (`ConvergenceRuns.ConvergesWhenInserting`).
- ServerParts.BodyAnswers: supposes that the merge is a body, because otherwise the appended change leaves nothing to read, and the update fails (`ServerProgress.CorrectExactly`).
- Delivery.EditsArrive: supposes that the merge is a body, that the editor shows one, and that empty answers have been right so far, as `Delivery.AnswerComes` and `Delivery.CatchesUp` do; it is about one round, in which nothing else happens.
- ServerReads.GetChangeAfter: waiting for the next revision is a parameter, the revision that is then seen.
- ServerReads.DiffLeads: says nothing for a last revision without contents, to which nothing can lead (`BodyFits.BrokenIsLast`).
- ServerParts.BodyRuns: updates against an empty body are supposed to be appended as given, because without that it is false (`ServerBodyRuns.FirstContentsCanBreakLog`).
- SnapshotManager.SnapshotManager.GetSnapshot: promises in the cache are their results; a request runs from its lookup to its answer without other operations in between, and requests during the initial retrieval are in `SnapshotCoherence.AnswerDuringRetrieval`.
- BodyClient.BodyClient.HandleGotUpdate: the chain of editor events, linked by promises in the code, is a sequence of those that have happened; waiting for the next one is left out.
- BodyClient.BodyClient.UpdateWith: an editor that changes a delta it is given (Quill restores a deleted final newline) is not modelled; every delta within bounds is shown as given.
- CaretControl.RemoveIdle: when the idle check runs next is left out, because it only delays the same change.
- UpdateRetry.Update: the delays between attempts are as in the code, the durations of the awaited calls only through the clock.
- CodecLaws.RoundTripExactly: numbers are integers; buffers are coded like other class instances, their base64 text being left out; constructors that refuse their arguments when decoding are not modelled.
- Codec.PairOf: when decoding a plain object, pairs that are no arrays of a key and a value are errors, though the code might read a pair off some other decoded value.
- JsonTree.JsonRoundTrip: the text of JSON, with its duplicate keys and integer-like keys in another order, is left out; trees are what parsing gives.
- Conversions of body operations from and to Quill's form, and the order of the result of `listChangeRange()`, which is not numeric in general.
- Choosing an ID and a color for a new caret, because these are random or only cosmetic.
- Checks of the types of caret fields and of names of properties.
- Stopping and detaching a client, the count of its restarts, logging and metrics.
- Sessions, tokens, API connections, and the storage below the compare-and-append of a file.
