# SynchronizeFX list-command pipeline, modelled in Dafny

SynchronizeFX keeps JavaFX object graphs in sync between peers. List
properties are changed optimistically: each peer applies its own list
commands at once and sends them on, and every command names the version of
the list it was computed against (`from`) and the version it produces
(`to`). This project models the version-gated part of that pipeline:

- **Value** (`values.dfy`): the payload of add and replace commands, either the
  id of an observable object or a simple object. The raw representation of two
  nullable final fields is kept, so the classification corner case is visible:
  `isSimpleObject` only tests the simple-object field, so a value built from a
  null simple object counts as observable with a null id.
- **List commands** (`commands.dfy`): `AddToList`, `RemoveFromList`,
  `ReplaceInList` and `RemoveFromListExcept`, each with a list id and a version
  change. Versions are random UUIDs and are only compared for equality.
- **List metadata and its store** (`metadata_store.dfy`): per list, a local
  version, an approved version and a FIFO of unapproved local commands, kept in
  a map from list id. Following the two store methods' documentation (their
  bodies in the source are unimplemented stubs), reading an unknown list and
  storing a known one fail;
  changing a known list's metadata is a separate update. What the getters'
  comments document, the approved version being the oldest unapproved `from`
  and the local version the newest `to`, is the predicate `DocumentedEnds`
  (the comment's remark that, with nothing pending, the approved version is
  the `to` of the newest remote command is not stated, as no history of
  remote commands is kept).
  `Chained` adds that consecutive unapproved commands link up, and is
  characterised independently by replaying the queue. The plain setters do
  not enforce either. A lemma shows one setter breaking them, another shows
  that the documented ends alone do not survive approval, and two lemmas show
  which combined updates preserve the chain.
- **The command filter** (`command_filter.dfy`): a pure function from the
  filter's state and one command to the ordered calls it makes: cleaning the
  reference cache, forwarding to the executor, pinning an object. It also
  returns the failure it ended with, if any. The filter takes the store by value
  and returns none, so it cannot change a version or the queue.
- **The replace repairer** (`replace_repairer.dfy`): rebases a replace against a
  command applied ahead of it. The result is always a replace or an add. It is an
  add exactly when the replaced element was removed, or when the input was
  already an add. Remote repairs compose along the local queue.
- **Pipeline** (`pipeline.dfy`): a remote command built on the approved version
  is dropped by the local-version filter while local commands are pending. After
  repair against the pending commands, oldest first, it is accepted. A concrete
  scenario plays this through: a concurrent replace and removal of the same
  element.

Java `null` is `Option.None`, exceptions are `Result.Err` values carrying a
`Failure`, and the collaborators the filter calls become `Effect` values in
the trace it returns.

## Model

| member | source | states |
|---|---|---|
| Values.ObservableConstructor | synchronizefx-core/src/main/java/de/saxsys/synchronizefx/core/metamodel/commands/Value.java:38-41 | the id constructor stores the id, leaves the simple object null, and the value is not simple |
| Values.SimpleObjectConstructor | synchronizefx-core/src/main/java/de/saxsys/synchronizefx/core/metamodel/commands/Value.java:49-52 | the simple-object constructor stores the object with a null id; the value is simple exactly when the object is non-null |
| Values.NonNullConstructionIsWellFormed | synchronizefx-core/src/main/java/de/saxsys/synchronizefx/core/metamodel/commands/Value.java:38-77 | with a non-null argument exactly one field is set, and `isSimpleObject` tells which constructor was used |
| Values.ClassificationOnWellFormed | synchronizefx-core/src/main/java/de/saxsys/synchronizefx/core/metamodel/commands/Value.java:54-77 | on a value with exactly one field set, it is simple iff it has no observable id, as the getters document |
| Values.NullSimpleObjectLooksObservable | synchronizefx-core/src/main/java/de/saxsys/synchronizefx/core/metamodel/commands/Value.java:49-77 | a value built from a null simple object is not simple, has a null id, has the same fields as the value built from a null id, and is not well-formed |
| Values.ConstructedValuesAreWellFormedOrNull | synchronizefx-core/src/main/java/de/saxsys/synchronizefx/core/metamodel/commands/Value.java:38-52 | a constructed value is well-formed iff its argument is non-null; otherwise it is the all-null value |
| MetaDataStore.GetMetaDataOrFail | synchronizefx-core/src/main/java/de/saxsys/synchronizefx/core/metamodel/ListPropertyMetaDataStore.java:42-53 | succeeds iff metadata is stored for the id, returning that metadata; fails with the missing list id otherwise |
| MetaDataStore.StoreMetaDataOrFail | synchronizefx-core/src/main/java/de/saxsys/synchronizefx/core/metamodel/ListPropertyMetaDataStore.java:55-69 | succeeds iff the id is new, adding exactly that id; a known id fails with a duplicate-list failure |
| MetaDataStore.StoreThenGet | synchronizefx-core/src/main/java/de/saxsys/synchronizefx/core/metamodel/ListPropertyMetaDataStore.java:42-69 | after storing for a new id, reading that id returns the stored metadata and reading any other id is unchanged |
| MetaDataStore.StoreIsNotAnUpsert | synchronizefx-core/src/main/java/de/saxsys/synchronizefx/core/metamodel/ListPropertyMetaDataStore.java:55-69 | storing for a known id fails and the existing entry is still returned |
| MetaDataStore.UpdateMetaData | synchronizefx-core/src/main/java/de/saxsys/synchronizefx/core/metamodel/ListPropertyMetaDataStore.java:109-171 | an in-place change of a known list's metadata keeps the set of known lists |
| MetaDataStore.UpdateThenGet | synchronizefx-core/src/main/java/de/saxsys/synchronizefx/core/metamodel/ListPropertyMetaDataStore.java:109-171 | after an in-place change, reading that list returns the changed metadata and every other list reads as before |
| MetaDataStore.NewMetaDataHasEmptyQueue | synchronizefx-core/src/main/java/de/saxsys/synchronizefx/core/metamodel/ListPropertyMetaDataStore.java:77-92 | a new instance has the given local and approved versions and an empty unapproved queue |
| MetaDataStore.SettersChangeOneVersion | synchronizefx-core/src/main/java/de/saxsys/synchronizefx/core/metamodel/ListPropertyMetaDataStore.java:113-152 | `setLocalVersion` changes only the local version, `setApprovedVersion` only the approved version |
| MetaDataStore.QueueAndListViewsAgree | synchronizefx-core/src/main/java/de/saxsys/synchronizefx/core/metamodel/ListPropertyMetaDataStore.java:154-171 | the queue and list getters expose one collection; an offered command appears at the end of the list |
| MetaDataStore.OfferThenPollIsFifo | synchronizefx-core/src/main/java/de/saxsys/synchronizefx/core/metamodel/ListPropertyMetaDataStore.java:154-161 | the unapproved queue is FIFO: offering at the tail commutes with polling the head |
| MetaDataStore.ReplayReachesEnd | synchronizefx-core/src/main/java/de/saxsys/synchronizefx/core/metamodel/ListPropertyMetaDataStore.java:101-104 | replaying a command sequence from a version reaches an end version iff the commands link up from start to end |
| MetaDataStore.ChainedIffReplayReachesLocal | synchronizefx-core/src/main/java/de/saxsys/synchronizefx/core/metamodel/ListPropertyMetaDataStore.java:101-134 | the documented ends (approved = oldest `from`, local = newest `to`, equal when empty) together with linked consecutive commands hold iff replaying the queue from the approved version reaches the local version |
| MetaDataStore.NewMetaDataChainedIffVersionsAgree | synchronizefx-core/src/main/java/de/saxsys/synchronizefx/core/metamodel/ListPropertyMetaDataStore.java:81-104 | a new instance satisfies the chain, and its documented ends, iff its initial local and approved versions are equal |
| MetaDataStore.RecordingLocalCommandKeepsChain | synchronizefx-core/src/main/java/de/saxsys/synchronizefx/core/metamodel/ListPropertyMetaDataStore.java:101-122 | queueing a command that starts at the local version and moving the local version to its `to` preserves the chain |
| MetaDataStore.ApprovingOldestKeepsChain | synchronizefx-core/src/main/java/de/saxsys/synchronizefx/core/metamodel/ListPropertyMetaDataStore.java:131-152 | polling the oldest command and moving the approved version to its `to` preserves the chain |
| MetaDataStore.SetLocalVersionCanBreakChain | synchronizefx-core/src/main/java/de/saxsys/synchronizefx/core/metamodel/ListPropertyMetaDataStore.java:113-122 | the plain local-version setter can break even the documented ends |
| MetaDataStore.DocumentedEndsAloneDoNotSurviveApproval | synchronizefx-core/src/main/java/de/saxsys/synchronizefx/core/metamodel/ListPropertyMetaDataStore.java:131-152 | a queue satisfying the documented ends but not linked loses them when the oldest command is approved |
| MetaDataStore.LocalEqualsApprovedIffQueueEmpty | synchronizefx-core/src/main/java/de/saxsys/synchronizefx/core/metamodel/ListPropertyMetaDataStore.java:101-104 | on a chained list whose versions never repeat, local equals approved iff no command is unapproved |
| CommandFilter.CouldBeExecuted | synchronizefx-core/src/main/java/de/saxsys/synchronizefx/core/metamodel/executors/lists/ListPropertyCommandFilter.java:133-143 | fails for an unknown list; otherwise true iff the command's `from` equals the local version (local mode) or the approved version |
| CommandFilter.GetByIdOrFail | synchronizefx-core/src/main/java/de/saxsys/synchronizefx/core/metamodel/executors/lists/ListPropertyCommandFilter.java:149 | the registry lookup returns the object registered for a non-null id and fails for an unregistered or null id |
| CommandFilter.KeepReferenceIfObservable | synchronizefx-core/src/main/java/de/saxsys/synchronizefx/core/metamodel/executors/lists/ListPropertyCommandFilter.java:145-150 | no pin for a simple object; otherwise one pin of the registered object, or a failure when the id is null or unregistered |
| CommandFilter.Execute | synchronizefx-core/src/main/java/de/saxsys/synchronizefx/core/metamodel/executors/lists/ListPropertyCommandFilter.java:93-131 | the cache is cleaned exactly once, first; the command is forwarded unchanged, with no pin, iff accepted; an unknown list fails after the clean; a dropped removal is silent; a dropped add or replace pins its observable object, pins nothing for a simple object, or fails on an unregistered id |
| CommandFilter.DecisionIgnoresCommandKind | synchronizefx-core/src/main/java/de/saxsys/synchronizefx/core/metamodel/executors/lists/ListPropertyCommandFilter.java:133-143 | two commands for the same list with the same `from` are both forwarded or both dropped, whatever their kinds |
| CommandFilter.PinsOnlyOnDrop | synchronizefx-core/src/main/java/de/saxsys/synchronizefx/core/metamodel/executors/lists/ListPropertyCommandFilter.java:94-131 | a pin happens only for a dropped add or replace, after the clean, of the object registered for its value's id |
| CommandFilter.DroppedNullSimpleObjectFails | synchronizefx-core/src/main/java/de/saxsys/synchronizefx/core/metamodel/executors/lists/ListPropertyCommandFilter.java:145-150 | a dropped add or replace whose value was built from a null simple object fails on the lookup of a null id |
| ReplaceInListRepairer.RepairRemoteCommand | synchronizefx-core/src/main/java/de/saxsys/synchronizefx/core/metamodel/executors/lists/ReplaceInListRepairer.java:45-88 | keeps list and value, starts from the local command's `to`, and is an add iff the input was an add or the local command removed the replaced element |
| ReplaceInListRepairer.RepairLocalCommand | synchronizefx-core/src/main/java/de/saxsys/synchronizefx/core/metamodel/executors/lists/ReplaceInListRepairer.java:94-136 | keeps list and value, starts from the remote command's `to`, and is an add iff the remote command removed the element, which only a bulk removal can do |
| ReplaceInListRepairer.RepairRemoteAgainstAll | synchronizefx-core/src/main/java/de/saxsys/synchronizefx/core/metamodel/executors/lists/ReplaceInListRepairer.java:31-88 | repeated remote repair keeps list and value, ends at the last local command's `to`, never turns an add back into a replace, and keeps a replace a replace when no local command is a removal |
| ReplaceInListRepairer.ReplaceAgainstReplaceKeepsReplace | synchronizefx-core/src/main/java/de/saxsys/synchronizefx/core/metamodel/executors/lists/ReplaceInListRepairer.java:84-88 | a replace repaired against a replace stays a replace with the same value |
| ReplaceInListRepairer.ReplaceOfRemovedElementBecomesAdd | synchronizefx-core/src/main/java/de/saxsys/synchronizefx/core/metamodel/executors/lists/ReplaceInListRepairer.java:31-35 | a replace whose element was removed becomes an add of the same value after the removal's version |
| Pipeline.UnrepairedRemoteCommandIsDropped | synchronizefx-core/src/main/java/de/saxsys/synchronizefx/core/metamodel/executors/lists/ListPropertyCommandFilter.java:37-42 | with local commands pending and versions never repeating, a command built on the approved version is not forwarded by the local-version filter |
| Pipeline.RepairedRemoteCommandIsAccepted | synchronizefx-core/src/main/java/de/saxsys/synchronizefx/core/metamodel/executors/lists/ListPropertyCommandFilter.java:44-50 | a remote command built on the approved version, repaired against the chained local queue in order, is forwarded by the local-version filter |
| Pipeline.RepairedLocalCommandIsAccepted | synchronizefx-core/src/main/java/de/saxsys/synchronizefx/core/metamodel/executors/lists/ReplaceInListRepairer.java:27-29 | once the remote command's `to` is the approved version, the repaired local replace is forwarded by the approved-version filter |
| Pipeline.ConcurrentReplaceAndRemoveScenario | synchronizefx-core/src/main/java/de/saxsys/synchronizefx/core/metamodel/executors/lists/ListPropertyCommandFilter.java:34-50 | a replace concurrent with a removal of its element is dropped without a pin, repaired into an add at the removal's version, and then forwarded |

## Left out

- The weak, garbage-collector-coupled lifetime of list metadata and of pinned objects: the store is an explicit map, and nothing is ever collected.
- The internals of the temporary reference keeper: cleaning the cache and pinning an object are trace events only.
- The weak object registry: it is a partial map from ids to objects. A null id is treated as outside its domain, since the registry's code is not part of this model.
- The downstream list command executor that changes the JavaFX list: an accepted command becomes a `Forward` event.
- Random UUID generation: versions are opaque tokens with equality, and the fresh `to` version of a repaired command is a parameter.
- MetaDataStore.GetMetaDataOrFail: the source body is a stub that throws `UnsupportedOperationException` (ListPropertyMetaDataStore.java:52), so as written it never returns and every filter `execute` throws right after the cache clean. The model follows the method's documentation instead: return the stored metadata, fail for an unknown list.
- MetaDataStore.StoreMetaDataOrFail: the source body is a stub that throws `UnsupportedOperationException` (ListPropertyMetaDataStore.java:68). The model follows the method's documentation instead: store for a new list, fail for a known one.
- ReplaceInListRepairer.RepairRemoteCommand: every repairer method body in the source is a stub that throws. The position a surviving element moves to is a caller-supplied `reposition` rule, not fixed index-shift arithmetic. Which removals delete the replaced element is defined from the command kinds: a removal at the same position, or a bulk removal that does not retain it.
- ReplaceInListRepairer.RepairLocalCommand: same as above.
- A replace concurrent with a replace of the same element has no resolution rule in the source. The model keeps it a replace at the repositioned index.
- The command classes are modelled only by their list id, position, value and version change; a bulk removal keeps a set of positions.
- Chained: beyond the two ends the getters' comments document, it assumes consecutive unapproved commands link up, each local command being built on the local version of its time. The comments do not state this link condition.
- In-place mutation: `getMetaDataOrFail` returns the stored object and callers change it through its setters and the live `LinkedList`. Here such a change is `UpdateMetaData` on the store. Of the queue, only `offer` and `poll` are modelled; arbitrary `List` edits (insert at a position, remove an element, clear) are not.
- Null versions, list ids and values: they are non-null in the model. In the source a null `from` version makes `couldBeExecuted` throw a `NullPointerException` before anything is forwarded or pinned, and a null stored version rejects every command; that exception path is not modelled.
- Threading, network transport, command serialisation and `toString`.

Facts about the source the model keeps:
- Metadata is stored as a whole `ListPropertyMetaData` (ListPropertyMetaDataStore.java:66).
- A `Value` can have neither field set: when it is built from a null id (Value.java:38-41) or from a null simple object (Value.java:49-52). Only the second is misclassified by `isSimpleObject`, since it was meant to be simple; both end in a lookup of a null id when dropped.
- The getters' comments promise only that local equals approved when nothing is pending (ListPropertyMetaDataStore.java:102-104). The converse needs versions that never repeat, and `LocalEqualsApprovedIffQueueEmpty` states it under that condition.
