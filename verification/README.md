# Models of the rocketplane agent, control plane and console, with proofs

The project models the parts of the repository whose correctness depends on more than one
function, and proves what they are for.

**Snapshots and rollback** (`agent/internal/actions`). A reversible run is a sequence of builtins.
Each records a before-state in an ordered log where the first capture of a key wins, reports it
durably, and only then changes the cluster. One generic restore replays the log last entry first.
`MergePatch` has RFC 7396 merge patch and the restore patch; `Stripping` has what a snapshot keeps
and the restorable content of an object; `FieldPaths`, `FieldContent` and `JsonHeap` have paths
into objects, on values and on maps changed in place; `Captures` and `UndoLog` have the log, its
replay and its footprint; `VisiblePaths`, `ClearedPaths` and `UndoExactness` say exactly which
changes a replay undoes; `SeveralFields` has mutations of several fields at once; `CaptureKeys`,
`CallKeys` and `SnapshotCrypto` have first-wins keys and the sealing of Secrets; `SnapshotRun` is
the protocol as a state machine, `SnapshotScript` what scripts of builtins do in it,
`CollidingCalls` what becomes of calls that are not captured, `RestoreReport` what a restore
reports, and `SnapshotEngine` the code itself: classes for the log, the API server and the runner,
proved to take exactly the steps of the state machine.

What these theorems say is then said once more without the functions they are stated through:
`RestoredFields` what a rollback gives back, path by path; `BuiltinEffects` when each builtin
fails, what it records and what it makes of the cluster; `ObjectNames` which object a reference
reaches; `CarefulScripts` and `RollbackExamples` scripts the theorems hold for; `MergeExamples` the
examples of RFC 7396.

**Traces** (`SpanTree`, and `SpanAdoption` by the numbers of the spans), **log tailing** (`LogTail`,
and `LogLines` by the characters), **alert rules** (`AlertRules`, and `AlertValues` by the values),
**dashboards as Perses documents** (`Dashboards`, `DashboardImport`, and `PanelTitles` by the words)
and **risk levels** (`ActionPolicy`, and `ReplicaCounts` by numbers and numerals) follow.

Functions state what code computes; methods with loops and classes are proved equal to them; the
theorems are about the functions, over every input, history or run.

## What a careful run is

The rollback theorems hold for every run that meets these conditions, each of which a caller could
check before the step it is about:

- an object that exists when it is captured whole names its kind and API version;
- fields are captured where the parent of the path is an object and the value is no object, as far
  as the content goes (server-owned fields are not part of it, so paths into them may have any
  value); what is set on them later may be anything
  (`FieldPaths.UndoIsExactIff` says exactly what happens otherwise);
- what a call whose key was seen before changes is covered by the log
  (`CallKeys.SeenCleanCallIsCovered` and `CallKeys.ConfigMapCallsNeverCollide` give calls
  for which this always holds; `CollidingCalls.SeenFieldCallIsUndoneIff` and
  `CollidingCalls.SeenLineIsUndoneIff` say exactly when a call without it is undone);
- other writers keep off captured objects and captured paths; they may do anything else, at any
  time, and their edits are kept;
- for what concerns the durable list only: durable reports arrive, and Secret payloads seal and
  open (`SnapshotCrypto.SoundVaultExists` has a cipher that does). What concerns the log in memory
  assumes nothing about the cipher.

Nothing is assumed about what whole-object builtins write, how often fields are set, in which order
and under how many names objects are touched, or where a run stops.

## Where code and comments differ

- `agent/internal/actions/snapshot_crypto.go:63-66` says restore does nothing for a capture that
  cannot be decrypted. That is so for field captures only
  (`SnapshotCrypto.UnopenedFieldCaptureIsNoOp`); for a whole object that still exists, the agent
  sends a patch that removes every key it may change (`SnapshotCrypto.UnopenedPatchRemovesAll`), and
  one that is missing it creates empty (`SnapshotCrypto.UnopenedObjectCaptureCreatesHusk`). A server
  may refuse either; the entry is then reported as failed.
  `SnapshotCrypto.UnopenedIsNoOpIff` says exactly when the comment holds.
- `apps/web/components/traces/trace-drawer.tsx:35` calls adoption free of cycles. Adopted edges
  alone are; together with recorded ones they may close a cycle
  (`SpanTree.AdoptionCanCloseACycle`). `SpanTree.NothingLeftOverIff` says exactly when they do not;
  a trace with one root is flattened as a whole as soon as one span contains the root
  (`SpanTree.OneRootIff`).
- `agent/internal/actions/script_snapshot.go:169-173` promises that field restore undoes exactly the
  field. It leaves keys added under an object-valued field, and an empty parent where there was
  none (`FieldPaths.UndoIsExactIff`, with both cases in `FieldPaths.AddedKeyStays` and
  `FieldPaths.MissingParentStays`).

## Parameters

The kind table, the API-version parser and lower-casing (`Captures.Discovery`); the cipher
(`SnapshotCrypto.Vault`); what the server makes of a strategic-merge patch or a server-side apply
(`SnapshotScript.Op`); failures of reads and writes (`SnapshotScript.Fault`); what the server refuses during a restore
(`RestoreReport.Refusals`); room in the log channel (`LogTail.Room`); the JSON decoders of
log lines and of operation parameters; the order in which the console enumerates a panel map; the
time, value, mute and maintenance flags of an evaluation. Strings of log lines are bytes.

## Model

| member | source | states |
|---|---|---|
| MergePatch.RestorePatchRestores | agent/internal/actions/snapshot_engine.go:289-315 | For every two JSON values, with no precondition: applying the restore patch of `before` and `current` to `current` under RFC 7396 section 2 yields exactly `before` with the null members of its objects dropped; a missing `before` counts as an empty object. |
| MergePatch.DropNullsMerge | agent/internal/actions/snapshot_engine.go:228-234 | Nulls hidden in a live object do not influence a merge: dropping them before or after merging gives the same result. |
| MergePatch.MergeSelf | agent/internal/actions/snapshot_engine.go:289-296 | Merging a null-free value into itself, or an empty patch into a null-free object, changes nothing. |
| MergeExamples.MembersChange | agent/internal/actions/snapshot_engine.go:289-296 | The merge the theorems are about is the one of RFC 7396: members are replaced, added and removed as in its appendix A. |
| MergeExamples.MembersOfMembers | agent/internal/actions/snapshot_engine.go:289-296 | Members of members are merged as in the same appendix. |
| MergeExamples.NullsLeaveNothing | agent/internal/actions/snapshot_engine.go:289-296 | Nulls inside an added object leave an empty one, as in its last example. |
| Stripping.StripForSnapshot | agent/internal/actions/snapshot.go:98-114 | The step-by-step deletion of server noise (status, seven metadata fields, two annotations, then an annotations map left empty) computes the snapshot the other theorems are about. |
| Stripping.StripDropsExactlyNoise | agent/internal/actions/snapshot.go:98-114 | Exactly what a snapshot lacks, name by name: status; of metadata managedFields, resourceVersion, uid, generation, creationTimestamp, selfLink and ownerReferences; the annotations kubectl.kubernetes.io/last-applied-configuration and deployment.kubernetes.io/revision, and annotations when no other is left. Everything else, labels among it, is there as it was. |
| Stripping.CanonMerge | agent/internal/actions/snapshot.go:98-114 | Stripping commutes with merging at the level of restorable content: the content of a merge is the merge of the contents, so server noise never decides what a patch restores. |
| Stripping.StripKeepsContent | agent/internal/actions/snapshot.go:83-114 | Stripping an object and then reading its restorable content gives the content it had before. |
| Stripping.RestoreContent | agent/internal/actions/snapshot_engine.go:228-234 | Whatever the live object has become, the whole-object restore gives it exactly the restorable content of the captured one. |
| Stripping.RestoreIsExact | agent/internal/actions/snapshot_engine.go:228-234 | For every live object and every captured object, annotations present, absent or empty: after restore the snapshot of the live object is the snapshot of the null-free captured one. |
| Stripping.RestoreIsVerbatim | agent/internal/actions/snapshot_engine.go:228-234 | A null-free capture that is a fixed point of stripping comes back verbatim. |
| Stripping.SameContentSameSnapshot | agent/internal/actions/snapshot.go:98-114 | Two objects have equal restorable content if and only if their null-free snapshots are equal, so the content used in the run theorems is what a snapshot shows. |
| FieldPaths.NestedGet | agent/internal/actions/snapshot_engine.go:257-271 | The loop finds a value exactly when every segment exists on an object, and returns it. |
| JsonHeap.SetNestedInPlace | agent/internal/actions/snapshot_engine.go:317-331 | Walking maps by reference, making missing ones and writing the last key turns the document below the root into the one the value-level `SetNested` describes, keeps it a tree, and leaves every map outside it alone. |
| JsonHeap.WriteHolds | agent/internal/actions/snapshot_engine.go:319-330 | One write to one map at the end of a path of maps changes the reachable document at that path and nowhere else, provided no map hangs in two places. |
| JsonHeap.EmptyOnTheWay | agent/internal/actions/snapshot_engine.go:325-328 | Putting an empty map where the path has no object does not change the final outcome of the walk. |
| JsonHeap.GrownContents | agent/internal/actions/snapshot_engine.go:317-331 | Hanging a subtree at the end of a path of maps is `SetNested` on the documents. |
| JsonHeap.BuildPatch | agent/internal/actions/snapshot_engine.go:273-287 | Setting several paths in one growing document in place and writing it out gives exactly the merge patch of the assignments in order. |
| FieldPaths.AgreeMerge | agent/internal/actions/snapshot_engine.go:273-287 | A patch with a leaf or a null on every captured path makes any two objects agree on those paths and keeps every other agreement they had: the undo does not depend on what it undoes. |
| FieldPaths.PatchSelf | agent/internal/actions/snapshot_engine.go:273-287 | Setting captured values back on the object they were captured from changes nothing when the parents exist. |
| FieldPaths.PatchesCommute | agent/internal/actions/snapshot_engine.go:149-151 | Patches confined to unrelated paths commute. |
| FieldPaths.UndoKeepsSiblings | agent/internal/actions/snapshot_engine.go:149-168 | Field undo is surgical: for leaves with existing parents, mutate, let others edit unrelated paths, undo gives the original with exactly those edits. |
| FieldPaths.UndoIsExactIff | agent/internal/actions/snapshot_engine.go:273-287 | For every list of paths none of which is at or above another: a mutation of those fields and its undo give the object back if and only if the parent of each was an object and no value set over an object-valued field added a key to it. |
| FieldPaths.MissingParentStays | agent/internal/actions/snapshot_engine.go:273-287 | The first way to fail: where the parent was absent, an empty object stays. |
| FieldPaths.AddedKeyStays | agent/internal/actions/snapshot_engine.go:273-287 | The second: a key added under an object-valued field stays. |
| SeveralFields.LiveUndoIsExactIff | agent/internal/actions/script_snapshot.go:445-483 | The same when paths repeat or are overridden by a later one at or above them: only the assignments that no later one overrides count. |
| SeveralFields.NestedLosesLeaf | agent/internal/actions/snapshot_engine.go:273-287 | A path set after one it lies inside is a third way to fail: when the upper one was not an object, an object stays in its place. |
| FieldContent.ContentAgreeMerge | agent/internal/actions/snapshot_engine.go:218-225 | The same insensitivity of field undo holds for restorable content, across server noise. |
| FieldContent.ContentPatchAgrees | agent/internal/actions/script_snapshot.go:192-203 | A field mutation changes restorable content at most at or below the visible part of its own paths. |
| VisiblePaths.TopOfVisible | agent/internal/actions/snapshot.go:98-114 | Assigning to a server-owned field, or below one, is to the content as good as removing that field, so such paths need no exception. |
| Captures.EnsuredGvk | agent/internal/actions/snapshot_engine.go:333-348 | An object created again names kind and API version exactly when the capture, the kind table or the reference gives one, and has every other member as captured. |
| ObjectNames.CreatedUnder | agent/internal/actions/snapshot_engine.go:333-348 | The API version an object is created again under: its own, else `version` or `group/version` of the kind table, else the one of the reference, else none. |
| ObjectNames.TargetIs | agent/internal/actions/snapshot.go:48-81 | The object a reference reaches: its name; no namespace for nodes, namespaces, persistent volumes and the namespace `-`, and otherwise its own; the resource of the kind table unless the script names one, else the parsed API version with `v1` for a missing version and the kind in lower case with an `s` for a missing resource; and none exactly when the table does not apply and the API version is malformed. |
| ObjectNames.SameObjectIff | agent/internal/actions/snapshot.go:48-81 | References of one kind, resource and API version reach one object if and only if they have one name and, where the kind has namespaces, one namespace. |
| Captures.ReplayCovers | agent/internal/actions/snapshot_engine.go:182-244 | Footprint induction: two clusters that differ at most in the objects and paths the log covers are replayed to the same objects with the same content. |
| Captures.UndoCovers | agent/internal/actions/snapshot_engine.go:186-241 | Undoing one entry makes two clusters equal on what that entry covers and keeps every other agreement. |
| UndoLog.CaptureKeepsUndoable | agent/internal/actions/snapshot_engine.go:130-168 | Appending a fresh capture of the present state keeps the log undoable to the same base. |
| UndoLog.CoveredChange | agent/internal/actions/script_snapshot.go:660-729 | Any change within what the log covers leaves the outcome of the replay as it was. |
| UndoExactness.ChangeIsUndoneIff | agent/internal/actions/snapshot_engine.go:182-244 | Exactness, for every log and every change, by whatever means: replaying the log from the changed cluster ends in the base if and only if, captured objects aside and captured fields cleared, the change left every object and its content as it was. |
| UndoExactness.GroundedChangeIsUndoneIff | agent/internal/actions/snapshot_engine.go:182-244 | For a change that leaves captured fields under objects: it is undone if and only if the log covers it. |
| UndoExactness.UnrelatedPatchIsUndoneIff | agent/internal/actions/snapshot_engine.go:149-168 | A patch on paths unrelated to everything captured is undone if and only if it changes no content. |
| UndoExactness.FieldWriteIsUndoneIff | agent/internal/actions/script_snapshot.go:477-483 | A write to fields of one object is undone if and only if the object is captured whole or its content with the captured fields cleared is the same before and after. |
| ClearedPaths.RestAfterUndo | agent/internal/actions/snapshot_engine.go:273-287 | Undoing fields makes the same of two objects that are the same with those fields cleared, whatever stands on the way to them. |
| ClearedPaths.RestKept | agent/internal/actions/snapshot_engine.go:273-287 | Assigning to captured fields changes nothing of the content with those fields cleared. |
| UndoLog.FieldChangeIsCovered | agent/internal/actions/script_snapshot.go:474-483 | Once its paths are captured, a field mutation may set them to anything, any number of times. |
| UndoLog.PartialReplay | agent/internal/actions/snapshot_engine.go:182-244 | Replaying any entries of the log, in any order, stays within what the log covers, and a full replay afterwards still ends in the base. |
| UndoLog.CaptureHoldsBase | agent/internal/actions/snapshot_engine.go:130-168 | A capture taken now holds what the base has: a whole-object one everything outside the paths captured before, a field one the value at each path that is not at or below one captured before. |
| UndoLog.EarliestCaptureHoldsBase | agent/internal/actions/snapshot_engine.go:60-62 | First capture wins, for every object and every path: the earliest entry that covers a path, whole or by a path at or above it, holds what the base has there; where paths below it were captured before, outside those. |
| UndoLog.UncoveredIsAsInBase | agent/internal/actions/snapshot_engine.go:99-168 | What no entry covers is there, and as in the base, outside what was captured below it. |
| UndoLog.EditKeepsFirstHolds | agent/internal/actions/snapshot_engine.go:149-151 | Edits by other writers that keep off captured objects and paths leave what the entries hold true of the base with those edits. |
| UndoLog.EditKeepsUndoable | agent/internal/actions/snapshot_engine.go:149-151 | Edits by other writers that keep off captured objects and paths survive the replay. |
| CaptureKeys.FieldsKeyInjective | agent/internal/actions/snapshot_engine.go:248-254 | On lists of paths with non-empty segments free of dots and commas, equal keys mean equal lists, and only then. |
| CaptureKeys.FieldsKeyCollides | agent/internal/actions/snapshot_engine.go:248-254 | Two concrete pairs of different path lists that share a key when a segment contains a dot or a comma. |
| CaptureKeys.ObjectKeyInjective | agent/internal/actions/snapshot_engine.go:131 | Object keys of references without bars are equal only for equal references. |
| CaptureKeys.FieldKeyInjective | agent/internal/actions/snapshot_engine.go:153 | Field keys of references without bars and clean paths are equal only for equal references and equal path lists. |
| CaptureKeys.ScopesNeverCollide | agent/internal/actions/snapshot_engine.go:131-153 | An object key never equals a field key. |
| CaptureKeys.ConfigMapKeyInjective | agent/internal/actions/script_snapshot.go:112 | The key of one ConfigMap data key determines it, whatever characters it has. |
| SnapshotCrypto.SoundVaultExists | agent/internal/actions/snapshot_crypto.go:23-91 | The vault of every key is sound, and no other key opens what it sealed, so the theorems about durable lists are about something. |
| SnapshotCrypto.DecryptsToItself | agent/internal/actions/snapshot_crypto.go:41-91 | Under a sound cipher the stored copy of every capture opens to the capture itself, Secret or not. |
| SnapshotCrypto.StoredCopyIs | agent/internal/actions/snapshot_crypto.go:41-61 | A capture of any other kind is stored as it is; of a Secret neither the object nor any field is stored, only the ciphertext of the two, and the rest of the entry is kept. |
| SnapshotCrypto.StoredOnlySealed | agent/internal/actions/snapshot_crypto.go:37-61 | The stored copy of a Secret capture depends on its payload through the ciphertext only. |
| SnapshotCrypto.UnopenedWhenKeyIsLost | agent/internal/actions/snapshot_crypto.go:46-80 | A stored Secret capture has no payload that opens exactly when it could not be sealed or the vault does not open it. |
| SnapshotCrypto.UnopenedPatchRemovesAll | agent/internal/actions/snapshot_crypto.go:63-91 | What is sent for a live object whose capture does not open is a patch that removes every member of its snapshot, metadata with the name among them. |
| SnapshotCrypto.UnopenedObjectCaptureErases | agent/internal/actions/snapshot_crypto.go:63-91 | Where that patch is accepted, it removes everything but server-owned fields from the live object; the capture is not skipped. |
| SnapshotCrypto.UnopenedObjectCaptureCreatesHusk | agent/internal/actions/snapshot_crypto.go:63-91 | When the object is missing, undoing it creates one that has a kind and an API version and nothing else. |
| SnapshotCrypto.UnopenedIsNoOpIff | agent/internal/actions/snapshot_crypto.go:63-91 | Undoing an unopened capture changes nothing if and only if it is a field capture, its reference does not resolve, it records an absence and the object is absent, or the live object has an empty snapshot. |
| SnapshotCrypto.UnopenedFieldCaptureIsNoOp | agent/internal/actions/snapshot_crypto.go:63-91 | A field capture that no longer opens changes nothing. |
| SnapshotRun.StepKeepsInv | agent/internal/actions/script_snapshot.go:616-729 | Every step of a careful run (capture, report, mutation, abort, server churn, edits by others, undo steps from the log or from an openable durable list) keeps the invariant: both the log and its reported part undo to the base, and every entry holds the base values. No cipher is assumed. |
| SnapshotRun.StepKeepsStored | agent/internal/actions/script_snapshot.go:616-637 | Under a sound cipher every step keeps the durable list openable to exactly the reported part of the log. |
| SnapshotRun.CrashSafety | agent/internal/actions/script_snapshot.go:616-637 | At every point of every careful run, between capture, report and mutation or in the middle of an undo, replaying the log in memory ends in the base cluster, whatever the cipher is; under a sound cipher so does replaying the opened durable list. |
| SnapshotRun.RollbackRestoresInitialCluster | agent/internal/actions/snapshot_engine.go:182-244 | Without other writers the replay of the log gives every object its initial snapshot, and no object more or less, for any mix of scopes, aliased keys, deletes and re-creates; under a sound cipher so does the durable list. |
| RestoredFields.RollbackRestoresEveryField | agent/internal/actions/snapshot_engine.go:182-244 | The same without stripping or content: without other writers the replay gives back the objects there were, and in each of them, null members aside, the value at every path except status, the seven named metadata members, the two named annotations, and what is inside these; under a sound cipher so does the durable list. |
| RestoredFields.SameMember | agent/internal/actions/snapshot.go:98-114 | So the specification, the data and every other member except status and metadata come back, and everything in them. |
| RestoredFields.SameLabels | agent/internal/actions/snapshot.go:98-114 | And so do the labels. |
| SnapshotRun.RestoreIsRerunnable | agent/internal/actions/snapshot_engine.go:182-244 | After any partial replay a full replay still ends in the base; replaying twice is replaying once. |
| SnapshotRun.StrictMode | agent/internal/actions/snapshot_engine.go:99-168 | In every state of a careful run: every object or path that differs from the base is covered by the log; for every object and path the earliest entry that covers it holds the base value there; and until the run fails the keys seen are exactly those recorded. |
| CallKeys.OneObjectManyKeys | agent/internal/actions/snapshot.go:56-64 | One object can be captured under several keys: under every API version its kind ignores, and under `-` as under the empty namespace. |
| CallKeys.CleanNamesNeverCollide | agent/internal/actions/snapshot_engine.go:131-153 | Names without bars and clean paths are enough for a repeated key to mean the same target, scope and paths. |
| CallKeys.SeenCleanCallIsCovered | agent/internal/actions/snapshot_engine.go:131-156 | So among calls with such names a repeated key always means that the log covers the call. |
| CollidingCalls.SeenFieldCallIsUndoneIff | agent/internal/actions/snapshot_engine.go:152-156 | At every point of a careful run, a field call whose key was seen, which is written without being captured, can be rolled back if and only if it changes nothing of the object but what the log covers; which is so whenever the log covers its fields. |
| CollidingCalls.SeenObjectCallIsUndoneIff | agent/internal/actions/snapshot_engine.go:130-134 | The same for an object call whose key was seen, whatever its result is. |
| CallKeys.ConfigMapCallsNeverCollide | agent/internal/actions/script_snapshot.go:107-120 | Calls that set one ConfigMap data key each meet the key condition without any condition on the keys. |
| SnapshotScript.ScriptCanBeRolledBack | agent/internal/actions/script_snapshot.go:660-729 | For every careful script of builtins, wherever it stops, replaying its log gives every object its initial snapshot, also after any part of it has been replayed; under a sound cipher the durable list opens to that log. |
| BuiltinEffects.LineFailsIff | agent/internal/actions/script_snapshot.go:64-486 | Exactly when a builtin fails, builtin by builtin: an explicit failure always; apply and create without kind or name; set_fields with an empty path; every builtin whose target was not captured before and does not resolve or cannot be read; every writing one whose target does not resolve or whose write is refused; scale, patch and fields of a missing object; create of an existing one. A snapshot, and a delete of what is not there, fail in the capture only. |
| BuiltinEffects.FailedLineChangesNothing | agent/internal/actions/script_snapshot.go:89-307 | A builtin that fails leaves the cluster as it was. |
| BuiltinEffects.ScriptFailsIff | agent/internal/actions/script_snapshot.go:660-729 | A script fails if and only if one of its lines does after all before it succeeded. |
| BuiltinEffects.NothingAfterStop | agent/internal/actions/script_snapshot.go:660-729 | No line after the failing one has any effect, on the cluster, the log or the durable list. |
| BuiltinEffects.LineEffect | agent/internal/actions/script_snapshot.go:64-486 | What a builtin that succeeds makes of the cluster: scale sets spec.replicas to the count and no other member; patch is the merge with the patch; apply and a strategic patch leave the outcome the server made, create the manifest, delete nothing; set_fields the values at the paths with everything off them unchanged; patch_configmap sets data[key] to the text and no other key; snapshot changes nothing; and no other object is different. |
| BuiltinEffects.LineCaptures | agent/internal/actions/snapshot_engine.go:130-168 | A builtin that succeeds has recorded its target first, unless its key was seen: one more entry with the stripped object, an absence, or the values at exactly its paths, as they were, and one more durable report of it. |
| CarefulScripts.WholeObjectScriptsAreCareful | agent/internal/actions/script_snapshot.go:64-307 | Every script of whole-object builtins, on every cluster of objects that name their kind and API version, whatever fails in it, is one the rollback theorems hold for, if the names in it have no bars. |
| RollbackExamples.RelabelScaleAndFail | agent/internal/actions/script_snapshot.go:660-729 | A Deployment is relabelled and scaled to zero by a script that then fails: it ends with the label and the three replicas it had. |
| CollidingCalls.SeenLineIsUndoneIff | agent/internal/actions/script_snapshot.go:439-486 | After any careful script, a field call whose key was seen succeeds without being captured, and replaying the log gives every object its initial snapshot if and only if the call changed nothing but what the log covers. |
| CollidingCalls.CollidingCallsAreUndoneIff | agent/internal/actions/snapshot_engine.go:152-156 | For any two field calls on one object that share a key: the second is never captured, and is undone if and only if it changes nothing but the fields of the first; when the fields are unrelated, exactly when it would change no content of the initial object. |
| CollidingCalls.DottedCallIsUndoneIff | agent/internal/actions/snapshot_engine.go:248-254 | So after setting field `a.b`, setting field `b` of `a` is undone if and only if it would change no content. |
| CollidingCalls.CollidingCallIsNotUndone | agent/internal/actions/snapshot_engine.go:152-156 | For instance, when it sets a new leaf: the script succeeds, captures the first call only, and the new leaf outlives the replay. |
| SnapshotEngine.CaptureLog.Add | agent/internal/actions/snapshot_engine.go:79-90 | The entry gets the next number, is appended, and is reported durably before the call returns. |
| SnapshotEngine.CaptureLog.MarkSeen | agent/internal/actions/snapshot_engine.go:99-107 | True exactly the first time a key is seen; the key is seen afterwards. |
| SnapshotEngine.Runner.CaptureObject | agent/internal/actions/snapshot_engine.go:130-147 | Log, seen keys, durable list and outcome are those of the capture and report steps of the run: nothing for a seen key, an absence for a missing object, else the stripped object; the key stays seen when reading fails. |
| SnapshotEngine.Runner.CaptureFields | agent/internal/actions/snapshot_engine.go:152-168 | The same for field captures: before-values of exactly the paths about to be set, an error on a missing object. |
| SnapshotEngine.Runner.RunLine | agent/internal/actions/script_snapshot.go:89-307 | A builtin checks its arguments, captures and reports its target and only then writes; the new log and cluster, and whether it failed, are those of the modelled line, which `BuiltinEffects` says by the builtins themselves. |
| SnapshotEngine.Runner.Restore | agent/internal/actions/snapshot_engine.go:182-244 | Replays the opened captures last to first on the live server, which may refuse any of the requests; the final objects are those of replaying what was not refused, and the flags are those of each entry at its turn. |
| SnapshotEngine.Runner.RestoreEntry | agent/internal/actions/snapshot_engine.go:187-241 | One entry: delete what was created, patch fields back, diff-patch a live object, re-create a missing one; fails, and changes nothing, exactly when refused by the server, for an unresolvable reference, or for a field entry on a missing object. |
| SnapshotEngine.Runner.RunSnapshotAction | agent/internal/actions/script_snapshot.go:660-729 | The run fails if and only if one of its lines does. On failure the cluster is what the replay of the run makes of it, short of what the server refused; for a careful script a rollback nothing of which was refused leaves every object with its initial snapshot and every initial field, and in every case, failed or not, refused or not, replaying the list again gives every object its initial snapshot. |
| SnapshotEngine.BuildRestorePatch | agent/internal/actions/snapshot_engine.go:297-315 | The two loops over members build exactly the restore patch that `RestorePatchRestores` is about. |
| RestoreReport.PresentAfterReplay | agent/internal/actions/snapshot_engine.go:182-244 | Which objects exist after a replay: the earliest whole capture of an object decides, and without one it is there if it was. |
| RestoreReport.KeptIs | agent/internal/actions/snapshot_engine.go:182-244 | What a restore replays, entry by entry: each that is not refused, in its place, and no other. |
| RestoreReport.EntrySucceedsIff | agent/internal/actions/snapshot_engine.go:182-244 | An entry is reported as restored if and only if it is not refused, its reference resolves and, for a field entry, the object is there at its turn, which the later entries and the cluster decide. |
| RestoreReport.FailedEntryComesBack | agent/internal/actions/snapshot_engine.go:182-244 | A field entry of an object deleted later is reported as failed although an earlier entry brings the object back. |
| SpanTree.TightestContainer | apps/web/components/traces/trace-drawer.tsx:38-48 | The adopted parent is another, longer span that contains the orphan up to the tolerance, and none that contains it is shorter. |
| SpanAdoption.AdoptedIff | apps/web/components/traces/trace-drawer.tsx:36-48 | Adoption by the numbers: a span without a recorded parent in the trace has a parent if and only if some longer span starts at most 1500000 ns after it and ends, at start + 1000000 * durationMs, at most 1500000 ns before it; the parent is a shortest such span. |
| SpanAdoption.RecordedParentStays | apps/web/components/traces/trace-drawer.tsx:24-34 | A recorded parent that is in the trace is the parent, whatever is around the span. |
| SpanAdoption.DrawnUnder | apps/web/components/traces/trace-drawer.tsx:24-64 | So every node of the walked part of a drawn tree hangs under its recorded parent, or without one under a shortest span around it, or nowhere. |
| SpanAdoption.DrawAdopted | apps/web/components/traces/trace-drawer.tsx:23-71 | The whole drawing of a one-second request and a ten-millisecond call half a second into it whose parent is unknown: the call is drawn one level below the request. |
| SpanTree.FindParents | apps/web/components/traces/trace-drawer.tsx:24-48 | The two passes give every span its recorded parent if that is in the trace, else its tightest container. |
| SpanTree.Walk | apps/web/components/traces/trace-drawer.tsx:57-64 | From any rooted node the recursive walk ends and lists every proper descendant exactly once, each after its parent at one level more with only deeper nodes between, siblings in order of their start. |
| SpanTree.BuildTree | apps/web/components/traces/trace-drawer.tsx:23-71 | For unique non-empty ids and any parent links, unknown, self or cyclic: the output is a permutation of the input, its first part is that walk from the root, and the rest are exactly the spans from which following parents never ends, at depth 0 and in input order. |
| SpanTree.WalkReachesRooted | apps/web/components/traces/trace-drawer.tsx:57-69 | The walk from the root lists a span if and only if following its parents ends. |
| SpanTree.NothingLeftOverIff | apps/web/components/traces/trace-drawer.tsx:31-48 | Read off the input: nothing is left over if and only if following recorded parents always ends and, from every span without one, so does following hops, each to the last recorded ancestor of its tightest container. |
| SpanTree.OneRootIff | apps/web/components/traces/trace-drawer.tsx:31-48 | A trace with one root and no recorded cycle: nothing is left over if and only if no span contains the root within the tolerance, and otherwise every span is left over. |
| SpanTree.NothingLeftOver | apps/web/components/traces/trace-drawer.tsx:31-48 | In particular, if recorded parents form no cycle and are never shorter than their children, nothing is left over. |
| SpanTree.AdoptionCanCloseACycle | apps/web/components/traces/trace-drawer.tsx:31-48 | A root adopted by its own longer recorded child: neither span is reached although the recorded parents have no cycle. |
| SpanTree.LevelStep | apps/web/components/traces/trace-drawer.tsx:59-62 | A span is rooted exactly when its parent is, one level below it. |
| LogTail.TailFile.ReadFile | agent/internal/sync/logs.go:128-177 | One scan makes the records of the complete lines from the offset on (from the start if the file shrank), sends those for which the channel has room, in order, and moves offset and carry on independently of that. |
| LogTail.TailFile.ParseLogLine | agent/internal/sync/logs.go:198-263 | One line completes at most one record and leaves the carry the specification says, for CRI text, Docker JSON and unreadable lines. |
| LogTail.IncrementalIsBatch | agent/internal/sync/logs.go:128-177 | However an append-only file is scanned, the records of all scans and the final offset and carry are those of one pass over the final content. |
| LogTail.OffsetOnLineBoundary | agent/internal/sync/logs.go:150-176 | After any scans of a growing file the offset is just after a line break or where it started, and no complete line lies beyond it. |
| LogTail.CarryAndBodiesBounded | agent/internal/sync/logs.go:198-263 | After every line the carry is shorter than the limit, and every record has a non-empty body within it. |
| LogTail.CriLineReadsBack | agent/internal/sync/logs.go:218-233 | A fragment written as a CRI line is read back as the same time stamp, stream, flag and text. |
| LogTail.CriLinesSay | agent/internal/sync/logs.go:218-242 | So any list of such CRI lines says exactly its fragments. |
| LogTail.DockerLineReadsBack | agent/internal/sync/logs.go:199-216 | A Docker line is readable exactly when it decodes and has a time; its text is the log text, a line break at the end cut off and completing the message. |
| LogTail.FragmentsReassemble | agent/internal/sync/logs.go:198-262 | Any sequence of partial fragments closed by a full one, in CRI text or Docker JSON, non-empty and below the limit in total, gives exactly one record with the concatenated text and leaves no carry. |
| LogTail.TextIsConserved | agent/internal/sync/logs.go:198-242 | Over any lines, the completed bodies followed by the carry are the earlier carry followed by all readable text: nothing is lost, repeated or moved before the final cut. |
| LogLines.LinesAreContent | agent/internal/sync/logs.go:150-176 | The lines of a scan, each with its line break, are the text from the offset to the last line break, and none has a line break in it. |
| LogLines.ShrunkFileIsReread | agent/internal/sync/logs.go:133-147 | A file shorter than the offset is scanned from its start, any other from the offset on. |
| LogLines.CriPieceIff | agent/internal/sync/logs.go:218-242 | A CRI line is read as a fragment if and only if it is its time stamp, its stream and a flag without spaces, a space after each, and its text; the fragment is open exactly for the flag P. |
| LogLines.LineMakes | agent/internal/sync/logs.go:198-263 | A line with an open fragment makes no record while the carry stays below 16384 characters; any other readable line makes one record of the carry and its text, cut to 16384 characters, unless that is empty; an unreadable line nothing. |
| LogLines.DeliveredOneByOne | agent/internal/sync/logs.go:161-171 | A record is sent exactly when there is room at its turn, in order. |
| LogTail.RecordsCarryBodies | agent/internal/sync/logs.go:244-262 | The records are the non-empty completed bodies in order, each cut to the limit. |
| AlertRules.AlertRule.Evaluate | services/controlplane/internal/alerts/evaluator.go:108-191 | One evaluation moves state and clock and sends events, pages, incident calls and dispatch as the specification functions say. |
| AlertRules.StateIsStreak | services/controlplane/internal/alerts/evaluator.go:119-145 | For every history: ok exactly when there is no breaching streak, firing exactly when some evaluation of the streak came `ForSeconds` after its first, and the clock of a pending rule is the start of the streak. |
| AlertRules.FiringIsDuration | services/controlplane/internal/alerts/evaluator.go:122-140 | With nondecreasing times: firing exactly when the streak of breaching successful evaluations has lasted at least `ForSeconds`. |
| AlertValues.OkByLastValue | services/controlplane/internal/alerts/evaluator.go:69-145 | By the values alone: a rule is ok if and only if no evaluation got a value, or the last that did got one not strictly below the threshold for "lt", not strictly above it for any other operator. |
| AlertValues.FiringByValues | services/controlplane/internal/alerts/evaluator.go:69-145 | A rule fires if and only if some evaluation since the values turned bad came at least `ForSeconds` times 1000000000 ns after the first of them, failed ones and all. |
| AlertValues.FreshRuleFiresOn | services/controlplane/internal/alerts/evaluator.go:69-145 | A fresh rule that need not wait fires on exactly the values strictly beyond the threshold, and a value equal to it never breaches. |
| AlertValues.PagesByValues | services/controlplane/internal/alerts/evaluator.go:69-188 | What an evaluation sends, by the values before and after it: page, incident and dispatch when the rule begins to fire, resolution when it ceases to, each subject to mute and maintenance. |
| AlertValues.ChangesAreRecorded | services/controlplane/internal/alerts/evaluator.go:142-156 | Every change of state, and nothing else, makes exactly one event with both states and the maintenance flag, before anything else that is sent, and sets the clock. |
| AlertRules.FailuresChangeNothing | services/controlplane/internal/alerts/evaluator.go:108-111 | A failed evaluation at the end of any history changes neither state, clock nor what was sent. |
| AlertRules.PagesByHistory | services/controlplane/internal/alerts/evaluator.go:143-188 | What an evaluation sends, by history alone: firing page, incident and dispatch when a streak has just lasted, resolution when a lasted streak has just broken, each subject to mute and maintenance as the code has it. |
| AlertRules.FiringsBalance | services/controlplane/internal/alerts/evaluator.go:120-188 | Over every run, transitions into firing minus transitions from firing to ok is 1 when firing and 0 otherwise. |
| AlertRules.EffectsFollowEpisodes | services/controlplane/internal/alerts/evaluator.go:159-188 | In everything a rule ever sends, each page, declaration and dispatch belongs to one open episode, at most once and never in maintenance, and each resolution directly follows the end of an episode. |
| Dashboards.ToPerses | apps/web/lib/dashboards.ts:91-135 | The export loop computes the document the next theorems are about: panels by key, items packed left to right. |
| Dashboards.ItemsAre | apps/web/lib/dashboards.ts:96-120 | Every item is eight high, eight times the requested span wide when that is from 1 to 3 and eight wide otherwise, and refers to the key of its panel. |
| Dashboards.ExportIs | apps/web/lib/dashboards.ts:123-134 | The head of the document: its kind, the identifier as metadata name, the display name, and the description unless it is empty. |
| Dashboards.GridPacksWithoutOverlap | apps/web/lib/dashboards.ts:92-120 | For every panel list and every requested span, items stay within 24 columns, none overlap, and later ones come after earlier ones in reading order. |
| Dashboards.GridPacksTightly | apps/web/lib/dashboards.ts:98-119 | Each item is right beside the one before it whenever it fits there, and only otherwise at the start of the next row. |
| Dashboards.KeyIsReferable | apps/web/lib/dashboards.ts:79-88 | A panel key is never empty and never contains the slash that separates references. |
| PanelTitles.KeyWordByWord | apps/web/lib/dashboards.ts:79-88 | Word by word: each run of ASCII letters and digits of the title goes into the key with its first letter in upper case, and nothing else does. |
| PanelTitles.WordIsItsKey | apps/web/lib/dashboards.ts:79-88 | A title that is one word not beginning in lower case is its own key, so different such titles never share one. |
| PanelTitles.NumberedKeys | apps/web/lib/dashboards.ts:79-88 | Titles without a word get `Panel` and the number of the panel from 1, so their keys differ. |
| Dashboards.ParsePerses | apps/web/lib/dashboards.ts:140-197 | The import computes its result or its first error in the order the code checks: kind, name, panel map, first panel without query in grid order, no panels. |
| Dashboards.SortRecoversPanelOrder | apps/web/lib/dashboards.ts:161-180 | Sorting by grid position brings the keys back into panel order whatever order the panel map is enumerated in. |
| DashboardImport.ImportSucceedsIff | apps/web/lib/dashboards.ts:140-196 | For every document, written by the exporter or by hand: the import succeeds if and only if the kind is right, there is a name, and there are panels each of which has a query. |
| DashboardImport.ImportFailsWith | apps/web/lib/dashboards.ts:140-196 | Which error a failing import reports: the kind first, then the name (the display name if there is one, even an empty one, else the metadata name), the panel map, a query, and last that there are no panels. |
| DashboardImport.ImportGives | apps/web/lib/dashboards.ts:161-196 | It then gives the display name if there is one, else the metadata name, the description and every panel once, in the order of grid positions, each with its title or else its key, its query, its unit, and one, two or three columns by the width of its item. |
| DashboardImport.ImportStopsAtFirst | apps/web/lib/dashboards.ts:178-186 | A missing query is reported for the first panel in grid order that has none. |
| DashboardImport.PositionIs | apps/web/lib/dashboards.ts:159-176 | A grid position is the number of items with a panel reference before the last one that refers to the panel, and 999 for a panel that no item refers to. |
| DashboardImport.LastRefDecides | apps/web/lib/dashboards.ts:159-174 | The last item that refers to a panel decides its position and its width, a missing width counting as 8. |
| DashboardImport.LastSegmentIs | apps/web/lib/dashboards.ts:164-170 | A reference names the panel after its last slash. |
| Dashboards.RoundTrip | apps/web/lib/dashboards.ts:91-197 | Export then import gives the same name, description and panels in order, spans rounded down to whole columns, if and only if the name is not empty, there are panels, every query is non-empty and panel keys are distinct. |
| Dashboards.SpansRoundDown | apps/web/lib/dashboards.ts:97-98 | A span comes back rounded down when it was from 1 to 3 and as 1 otherwise, so a panel comes back unchanged exactly when its span was 1, 2 or 3. |
| Dashboards.TitlesCanCollide | apps/web/lib/dashboards.ts:79-88 | Two titles that differ only in case and separators share a key wherever they stand. |
| StableSort.SortSorts | apps/web/lib/dashboards.ts:175-176 | The sort of the import and of the trace gives the same elements by ascending key. |
| StableSort.SortIsStable | apps/web/components/traces/trace-drawer.tsx:58 | Elements with equal keys keep their order. |
| ActionPolicy.ReversiblePatchKeepsReplicas | services/controlplane/internal/api/actions_policy.go:36-47 | If a patch is classified reversible, then no target whose replica count does not read as 0 reads as 0 after the RFC 7396 merge, number or numeric string. |
| ActionPolicy.FlaggedExactlyWhenZero | services/controlplane/internal/api/actions_policy.go:72-98 | Among documents whose replica count, if any, reads as an integer, the flagged ones are exactly those that take every target to zero, and exactly those that take some running target there. |
| ActionPolicy.LevelIff | services/controlplane/internal/api/actions_policy.go:36-98 | Which operations have which level, in both directions: reads; patches and manifests each of whose payloads decodes and sets no zero count; deletions of pods and jobs; everything else, unknown kinds included, is destructive. |
| ReplicaCounts.ReversibleIff | services/controlplane/internal/api/actions_policy.go:36-98 | An operation is reversible if and only if it is a patch or an apply and each payload it has is an object, or text that decodes to an object or to null, that sets no spec.replicas or one that reads as an integer other than zero. |
| ReplicaCounts.ReversibleNeverZeroes | services/controlplane/internal/api/actions_policy.go:36-98 | Whatever a reversible patch is merged into: if spec.replicas of the result reads as zero, it is the value that was there. |
| ReplicaCounts.CountIs | services/controlplane/internal/api/actions_policy.go:102-113 | What reads as the count n: a number cut towards zero, and a decimal numeral of 64 bits with an optional sign and any space around it. |
| ReplicaCounts.ReadsZeroIff | services/controlplane/internal/api/actions_policy.go:102-113 | A replica count reads as zero exactly when it is a number strictly between -1 and 1, or a text of one or more zeros after an optional sign with any space around. |
| Numerals.DigitByDigit | services/controlplane/internal/api/actions_policy.go:109 | What a numeral stands for, digit by digit. |

## Left out

- Failed durable posts: the code ignores them (`agent/internal/actions/script_snapshot.go:634-636`), and a run that loses one can be undone from the log in memory only.
- Ciphertexts as bytes: a ciphertext is a value that says what was sealed in it, under which key and nonce; base64, nonces drawn at random and truncation are not part of this model.
- Captures.ObjId: includes the API version, so one stored object reached under two served versions, through a `resource` override, counts as two objects.
- Numbers of a durable list decoded into 64-bit floats (`agent/internal/actions/script_snapshot.go:785-793`): integers beyond 2^53 would not come back exactly; numbers of the model are exact.
- SnapshotCrypto.UnopenedObjectCaptureErases: the server of the model accepts a patch that removes the metadata; one that refuses it, as a real API server does for lack of a name, leaves the object alone, and is among the refusals of a restore.
- SnapshotCrypto.UnopenedObjectCaptureCreatesHusk: likewise for an object without a name.
- SeveralFields.LiveUndoIsExactIff: lists in which a path comes after one it lies inside are not covered when the upper value was an object; when it was not, `SeveralFields.NestedLosesLeaf` says what happens.
- JsonHeap.BuildPatch: reads each captured value into fresh maps, as a list decoded from storage does; a captured value that shares maps with another one is not modelled.
- Stripping.StripForSnapshot: deletes keys on a value that stands for the deep copy, so aliasing with the original is not captured.
- SnapshotEngine.BuildRestorePatch: fills a value where the code fills a map that may share subtrees with the captured object; nothing writes to either afterwards.
- SnapshotEngine.ApiServer: applies merge patches exactly as RFC 7396; admission, defaulting, conflicts and validation are left to the steps of server churn and of other writers.
- Resource versions on create and the locks of the log: single-threaded scripts need neither for the results here.
- Strategic merge, server-side apply and Starlark itself: a whole-object builtin may leave any object behind.
- Runs marked `@reversible none`, `evict`, `exec` and the read-only builtins: nothing is captured there.
- The step timeline of a run and the wording of reports: display only.
- The transaction store, approvals and escalation of the control plane: their atomicity is in SQL.
- LogTail.TailFile.ReadFile: a file replaced by a longer one between two scans is not modelled; a shrunken file is read from its start as in the code.
- Severity detection, time stamps, workload names and log paths: easy members, and the clock.
- SpanTree.BuildTree: times are exact numbers, and span ids are unique and not empty.
- AlertRules.AlertRule.Evaluate: store and notification failures are ignored as in the code; values are exact numbers and times whole nanoseconds; duplicate incidents are merged by the store.
- Dashboards.ParsePerses: YAML text, several layouts (taken as one list of items) and keys of foreign documents that JavaScript objects inherit are not modelled.
- ActionPolicy.ReversiblePatchKeepsReplicas: numbers are exact; what a float beyond 64 bits converts to is left to the platform.
- Kind tables, operation lists, rendering, layout and the API client: easy members only.
