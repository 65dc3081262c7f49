/**
  The immutable list commands. Each carries the id of the list it targets and
  the version change it performs: the version of the state it was computed
  against (`fromVersion`) and the version of the state it produces
  (`toVersion`).
 */
module Commands {
  import opened Values

  datatype VersionChange = VersionChange(fromVersion: Uuid, toVersion: Uuid)

  datatype ListCommand =
    | AddToList(listId: Uuid, position: int, value: Value, listVersionChange: VersionChange)
    | RemoveFromList(listId: Uuid, position: int, listVersionChange: VersionChange)
    | ReplaceInList(listId: Uuid, position: int, value: Value, listVersionChange: VersionChange)
    | RemoveFromListExcept(listId: Uuid, retainedPositions: set<int>, listVersionChange: VersionChange)

  /** The commands a list command executor accepts: everything but the bulk removal. */
  type ExecutableListCommand = c: ListCommand | !c.RemoveFromListExcept?
    witness RemoveFromList(Uuid(0), 0, VersionChange(Uuid(0), Uuid(0)))

  function FromVersion(c: ListCommand): Uuid {
    c.listVersionChange.fromVersion
  }

  function ToVersion(c: ListCommand): Uuid {
    c.listVersionChange.toVersion
  }
}
