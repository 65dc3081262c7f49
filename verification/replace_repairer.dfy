/**
  Rebasing of replace commands against conflicting commands
  (ReplaceInListRepairer.java).

  A replace computed against a state that another command has since changed
  must be rewritten to apply after that command. When the element it was
  going to replace has been removed, the replace turns into an add that
  re-inserts its value; hence results, and inputs of remote repairs that may
  come out of an earlier repair, are "replace or add" commands.

  Where a surviving position ends up after the other command (the index
  shift) is a rule supplied by the caller, `reposition`; this model fixes
  only what the repair keeps: list, value, kind, and a version change that
  continues from the state the other command produced. The new `to` version
  is a freshly drawn random token, passed in.
 */
module ReplaceInListRepairer {
  import opened Wrappers
  import opened Values
  import opened Commands

  /** `ReplaceOrAddInList`: a replace, or the add a replace degrades into. */
  type ReplaceOrAddInList = c: ListCommand | c.AddToList? || c.ReplaceInList?
    witness AddToList(Uuid(0), 0, Value(None, None), VersionChange(Uuid(0), Uuid(0)))

  /** A plain `ReplaceInList`, as queued locally. */
  type ReplaceCommand = c: ListCommand | c.ReplaceInList?
    witness ReplaceInList(Uuid(0), 0, Value(None, None), VersionChange(Uuid(0), Uuid(0)))

  /** The remote commands a local replace is repaired against: an add, a bulk
      removal, or a replace-or-add. */
  type RemoteConflict = c: ListCommand | !c.RemoveFromList?
    witness AddToList(Uuid(0), 0, Value(None, None), VersionChange(Uuid(0), Uuid(0)))

  /** Where a position of the state before `other` lies in the state after it. */
  type Reposition = (int, ListCommand) -> int

  /** Whether `other` removes the element at `position`. */
  predicate TargetRemoved(position: int, other: ListCommand) {
    match other
    case RemoveFromList(_, removed, _) => removed == position
    case RemoveFromListExcept(_, retained, _) => position !in retained
    case _ => false
  }

  /** The repair both directions share: keep list and value, move to the new
      position, continue from `other`'s `to` version, and degrade a replace
      whose element is gone into an add. */
  function Rebase(subject: ReplaceOrAddInList, other: ListCommand, reposition: Reposition, freshVersion: Uuid)
    : ReplaceOrAddInList
  {
    var change := VersionChange(ToVersion(other), freshVersion);
    var position := reposition(subject.position, other);
    if subject.ReplaceInList? && !TargetRemoved(subject.position, other) then
      ReplaceInList(subject.listId, position, subject.value, change)
    else
      AddToList(subject.listId, position, subject.value, change)
  }

  /** `repairRemoteCommand` against a local `AddToList`, `RemoveFromList` or
      `ReplaceInList` that has already been applied. */
  function RepairRemoteCommand(remote: ReplaceOrAddInList, local: ExecutableListCommand,
                               reposition: Reposition, freshVersion: Uuid): (r: ReplaceOrAddInList)
    ensures r.listId == remote.listId && r.value == remote.value
    ensures FromVersion(r) == ToVersion(local) && ToVersion(r) == freshVersion
    ensures r.position == reposition(remote.position, local)
    ensures r.AddToList? <==> remote.AddToList? || TargetRemoved(remote.position, local)
    ensures r.AddToList? && remote.ReplaceInList? ==> local.RemoveFromList? && local.position == remote.position
  {
    Rebase(remote, local, reposition, freshVersion)
  }

  /** `repairLocalCommand` of a queued local replace against a remote
      `AddToList`, `RemoveFromListExcept` or `ReplaceOrAddInList` that has
      already been applied. */
  function RepairLocalCommand(local: ReplaceCommand, remote: RemoteConflict,
                              reposition: Reposition, freshVersion: Uuid): (r: ReplaceOrAddInList)
    ensures r.listId == local.listId && r.value == local.value
    ensures FromVersion(r) == ToVersion(remote) && ToVersion(r) == freshVersion
    ensures r.position == reposition(local.position, remote)
    ensures r.AddToList? <==> TargetRemoved(local.position, remote)
    ensures r.AddToList? ==> remote.RemoveFromListExcept? && local.position !in remote.retainedPositions
  {
    Rebase(local, remote, reposition, freshVersion)
  }

  /**
    Repairs a remote command against every local command applied ahead of it,
    oldest first, drawing one fresh version per step. The remote repair is
    closed over replace-or-add, so the steps compose.
   */
  function RepairRemoteAgainstAll(remote: ReplaceOrAddInList, locals: seq<ExecutableListCommand>,
                                  reposition: Reposition, freshVersions: seq<Uuid>): (r: ReplaceOrAddInList)
    requires |freshVersions| == |locals|
    ensures r.listId == remote.listId && r.value == remote.value
    ensures |locals| == 0 ==> r == remote
    ensures |locals| > 0 ==>
      FromVersion(r) == ToVersion(locals[|locals| - 1]) && ToVersion(r) == freshVersions[|locals| - 1]
    ensures remote.AddToList? ==> r.AddToList?
    ensures (forall i | 0 <= i < |locals| :: !locals[i].RemoveFromList?) ==> r.AddToList? == remote.AddToList?
    decreases |locals|
  {
    if |locals| == 0 then remote
    else
      var step := RepairRemoteCommand(remote, locals[0], reposition, freshVersions[0]);
      RepairRemoteAgainstAll(step, locals[1..], reposition, freshVersions[1..])
  }

  /** A replace repaired against a replace, in either direction, stays a
      replace with its own value and only the versions move on. For two
      replaces of the same element this is this model's choice: the source
      gives no rule for that case. */
  lemma ReplaceAgainstReplaceKeepsReplace(a: ReplaceCommand, b: ReplaceCommand,
                                          reposition: Reposition, freshVersion: Uuid)
    ensures RepairRemoteCommand(a, b, reposition, freshVersion).ReplaceInList?
    ensures RepairLocalCommand(a, b, reposition, freshVersion).ReplaceInList?
    ensures RepairRemoteCommand(a, b, reposition, freshVersion).value == a.value
    ensures RepairLocalCommand(a, b, reposition, freshVersion).value == a.value
  {
  }

  /** Replace against removal of its element becomes an add of the replacement
      value, continuing from the removal's `to` version. */
  lemma ReplaceOfRemovedElementBecomesAdd(remote: ReplaceCommand, local: ExecutableListCommand,
                                          reposition: Reposition, freshVersion: Uuid)
    requires local.RemoveFromList? && local.position == remote.position
    ensures RepairRemoteCommand(remote, local, reposition, freshVersion)
      == AddToList(remote.listId, reposition(remote.position, local), remote.value,
                   VersionChange(ToVersion(local), freshVersion))
  {
  }
}
