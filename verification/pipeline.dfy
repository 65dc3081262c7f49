/**
  How the parts fit together: a remote command computed against the approved
  version is dropped by a filter comparing against the local version while
  local commands are pending, and is accepted once it has been repaired
  against those pending commands in queue order.
 */
module Pipeline {
  import opened Wrappers
  import opened Values
  import opened Commands
  import opened MetaDataStore
  import opened CommandFilter
  import opened ReplaceInListRepairer

  /** The pending commands of a list are all kinds a remote repair accepts. */
  predicate RepairableQueue(m: ListPropertyMetaData) {
    forall i | 0 <= i < |m.unapprovedCommands| :: !m.unapprovedCommands[i].RemoveFromListExcept?
  }

  /** While local commands are pending and versions never repeat, a command
      built on the approved version is dropped by the local-version filter. */
  lemma UnrepairedRemoteCommandIsDropped(f: ListPropertyCommandFilter, remote: ExecutableListCommand)
    requires f.useLocalVersion
    requires remote.listId in f.listVersions.entries
    requires Chained(f.listVersions.entries[remote.listId])
    requires FreshVersions(f.listVersions.entries[remote.listId])
    requires |f.listVersions.entries[remote.listId].unapprovedCommands| > 0
    requires FromVersion(remote) == f.listVersions.entries[remote.listId].approvedVersion
    ensures Forward(remote) !in Execute(f, remote).effects
  {
    LocalEqualsApprovedIffQueueEmpty(f.listVersions.entries[remote.listId]);
  }

  /** Repaired against every pending local command, oldest first, a remote
      command built on the approved version is accepted by the local-version
      filter and forwarded unchanged. */
  lemma RepairedRemoteCommandIsAccepted(f: ListPropertyCommandFilter, remote: ReplaceOrAddInList,
                                        reposition: Reposition, freshVersions: seq<Uuid>)
    requires f.useLocalVersion
    requires remote.listId in f.listVersions.entries
    requires Chained(f.listVersions.entries[remote.listId])
    requires RepairableQueue(f.listVersions.entries[remote.listId])
    requires FromVersion(remote) == f.listVersions.entries[remote.listId].approvedVersion
    requires |freshVersions| == |f.listVersions.entries[remote.listId].unapprovedCommands|
    ensures var repaired := RepairRemoteAgainstAll(remote, f.listVersions.entries[remote.listId].unapprovedCommands,
                                                   reposition, freshVersions);
            Execute(f, repaired) == Execution([CleanReferenceCache, Forward(repaired)], None)
  {
  }

  /** Once a remote command has been applied and approved, a queued local
      replace repaired against it is accepted by the approved-version filter. */
  lemma RepairedLocalCommandIsAccepted(f: ListPropertyCommandFilter, local: ReplaceCommand, remote: RemoteConflict,
                                       reposition: Reposition, freshVersion: Uuid)
    requires !f.useLocalVersion
    requires local.listId in f.listVersions.entries
    ensures var m := f.listVersions.entries[local.listId];
            var approved := f.(listVersions :=
                              UpdateMetaData(f.listVersions, local.listId, SetApprovedVersion(m, ToVersion(remote))));
            var repaired := RepairLocalCommand(local, remote, reposition, freshVersion);
            Execute(approved, repaired) == Execution([CleanReferenceCache, Forward(repaired)], None)
  {
  }

  /**
    Peers A and B hold a list at version 0. A replaces element 1 by a simple
    value (version 0 to 2); B, which registered the list at version 0,
    concurrently removes element 1 (version 0 to 1) and queues that removal.
    B's local-version filter drops A's replace without pinning anything; A's
    replace repaired against B's removal is an add of the same value at
    version 1, which B's filter forwards.
   */
  lemma ConcurrentReplaceAndRemoveScenario(x: SimpleObject)
    ensures
      var list := Uuid(10);
      var removal := RemoveFromList(list, 1, VersionChange(Uuid(0), Uuid(1)));
      var replace := ReplaceInList(list, 1, OfSimpleObject(Some(x)), VersionChange(Uuid(0), Uuid(2)));
      var metaB := SetLocalVersion(OfferUnapproved(NewMetaData(Uuid(0), Uuid(0)), removal), Uuid(1));
      var registered :=
        StoreMetaDataOrFail(ListPropertyMetaDataStore(map[]), list, NewMetaData(Uuid(0), Uuid(0))).value;
      var filterB := ListPropertyCommandFilter(UpdateMetaData(registered, list, metaB), map[], true);
      var repaired := RepairRemoteCommand(replace, removal, (p, c) => p, Uuid(3));
      && Execute(filterB, replace) == Execution([CleanReferenceCache], None)
      && repaired == AddToList(list, 1, OfSimpleObject(Some(x)), VersionChange(Uuid(1), Uuid(3)))
      && Execute(filterB, repaired) == Execution([CleanReferenceCache, Forward(repaired)], None)
  {
  }
}
