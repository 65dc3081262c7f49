/**
  The accept/drop gate for incoming list commands (ListPropertyCommandFilter.java).

  A command is accepted when its `from` version is the version the filter
  compares against: the list's local version or its approved version,
  depending on how the filter was built. Accepted commands go to the
  downstream executor. A dropped add or replace whose value refers to an
  observable object pins that object in the reference keeper, because the
  sending peer will resend a repaired command referring to it. The reference
  cache is cleaned first, every time.

  The executor, the reference keeper and the object registry are outside this
  model: the first two are observed through the ordered effects `Execute`
  returns, the registry is a partial map from ids to objects.
 */
module CommandFilter {
  import opened Wrappers
  import opened Values
  import opened Errors
  import opened Commands
  import opened MetaDataStore

  /** An object known to the object registry. */
  datatype ObservableObject = ObservableObject(handle: nat)

  /** The calls the filter makes on its collaborators, in order. */
  datatype Effect =
    | CleanReferenceCache                         // referenceKeeper.cleanReferenceCache()
    | Forward(command: ListCommand)               // executor.execute(command)
    | KeepReferenceTo(pinned: ObservableObject)   // referenceKeeper.keepReferenceTo(object)

  /** What one `execute` call did, and the failure it ended with, if any. */
  datatype Execution = Execution(effects: seq<Effect>, failure: Option<Failure>)

  datatype ListPropertyCommandFilter = ListPropertyCommandFilter(
    listVersions: ListPropertyMetaDataStore,
    objectRegistry: map<Uuid, ObservableObject>,
    useLocalVersion: bool)

  /** The version of the list a command must start from to be accepted. */
  function ReferenceVersion(f: ListPropertyCommandFilter, metaData: ListPropertyMetaData): Uuid {
    if f.useLocalVersion then metaData.localVersion else metaData.approvedVersion
  }

  /** The acceptance condition, read directly off the store. */
  predicate Accepts(f: ListPropertyCommandFilter, command: ListCommand) {
    && command.listId in f.listVersions.entries
    && FromVersion(command) == ReferenceVersion(f, f.listVersions.entries[command.listId])
  }

  /** `couldBeExecuted`: fails for an unknown list, otherwise compares versions. */
  function CouldBeExecuted(f: ListPropertyCommandFilter, command: ListCommand): (r: Result<bool, Failure>)
    ensures r.Err? <==> command.listId !in f.listVersions.entries
    ensures r.Err? ==> r.error == NoMetaDataForList(command.listId)
    ensures r.Ok? ==> (r.value <==> Accepts(f, command))
  {
    var metaData :- GetMetaDataOrFail(f.listVersions, command.listId);
    Ok(FromVersion(command) == ReferenceVersion(f, metaData))
  }

  /** `objectRegistry.getByIdOrFail`: fails outside the registry's domain,
      and a null id is never in it. */
  function GetByIdOrFail(registry: map<Uuid, ObservableObject>, id: Option<Uuid>)
    : (r: Result<ObservableObject, Failure>)
    ensures r.Ok? <==> id.Some? && id.value in registry
    ensures r.Ok? ==> r.value == registry[id.value]
    ensures r.Err? ==> r.error == UnknownObservableObject(id)
  {
    if id.Some? && id.value in registry then Ok(registry[id.value]) else Err(UnknownObservableObject(id))
  }

  /** `keepReferenceIfObservable`: nothing for a simple object, otherwise one
      pin of the object the registry holds for the id. */
  function KeepReferenceIfObservable(f: ListPropertyCommandFilter, value: Value): (r: Result<seq<Effect>, Failure>)
    ensures value.IsSimpleObject() ==> r == Ok([])
    ensures !value.IsSimpleObject() && r.Ok? ==>
      && value.observableObjectId.Some? && value.observableObjectId.value in f.objectRegistry
      && r.value == [KeepReferenceTo(f.objectRegistry[value.observableObjectId.value])]
    ensures r.Err? <==>
      && !value.IsSimpleObject()
      && !(value.observableObjectId.Some? && value.observableObjectId.value in f.objectRegistry)
    ensures r.Err? ==> r.error == UnknownObservableObject(value.observableObjectId)
  {
    if value.IsSimpleObject() then Ok([])
    else
      var pinned :- GetByIdOrFail(f.objectRegistry, value.observableObjectId);
      Ok([KeepReferenceTo(pinned)])
  }

  /**
    `execute(AddToList)`, `execute(RemoveFromList)` and `execute(ReplaceInList)`:
    clean the reference cache, then forward the command if it is accepted;
    otherwise pin the observable object an add or replace refers to.
   */
  function Execute(f: ListPropertyCommandFilter, command: ExecutableListCommand): (r: Execution)
    // the cache is cleaned exactly once, before anything else
    ensures |r.effects| > 0 && r.effects[0] == CleanReferenceCache
    ensures CleanReferenceCache !in r.effects[1..]
    // forwarded exactly when accepted, unchanged, and then nothing is pinned
    ensures Forward(command) in r.effects <==> Accepts(f, command)
    ensures Accepts(f, command) ==> r == Execution([CleanReferenceCache, Forward(command)], None)
    ensures forall e :: e in r.effects && e.Forward? ==> e.command == command
    // an unknown list fails after the clean, with nothing forwarded or pinned
    ensures command.listId !in f.listVersions.entries ==>
      r == Execution([CleanReferenceCache], Some(NoMetaDataForList(command.listId)))
    // a dropped removal is silent
    ensures command.listId in f.listVersions.entries && !Accepts(f, command) && command.RemoveFromList? ==>
      r == Execution([CleanReferenceCache], None)
    // a dropped add or replace pins its observable object, if any
    ensures command.listId in f.listVersions.entries && !Accepts(f, command) && !command.RemoveFromList? ==>
      var v := command.value;
      && (v.IsSimpleObject() ==> r == Execution([CleanReferenceCache], None))
      && (!v.IsSimpleObject() && v.observableObjectId.Some? && v.observableObjectId.value in f.objectRegistry ==>
            r == Execution([CleanReferenceCache, KeepReferenceTo(f.objectRegistry[v.observableObjectId.value])],
                           None))
      && (!v.IsSimpleObject() && !(v.observableObjectId.Some? && v.observableObjectId.value in f.objectRegistry) ==>
            r == Execution([CleanReferenceCache], Some(UnknownObservableObject(v.observableObjectId))))
  {
    var clean := [CleanReferenceCache];
    match CouldBeExecuted(f, command)
    case Err(e) => Execution(clean, Some(e))
    case Ok(accepted) =>
      if accepted then Execution(clean + [Forward(command)], None)
      else if command.RemoveFromList? then Execution(clean, None)
      else match KeepReferenceIfObservable(f, command.value)
        case Ok(pins) => Execution(clean + pins, None)
        case Err(e) => Execution(clean, Some(e))
  }

  /** The decision depends on the list and the `from` version only, never on
      the kind of command. */
  lemma DecisionIgnoresCommandKind(f: ListPropertyCommandFilter, a: ExecutableListCommand, b: ExecutableListCommand)
    requires a.listId == b.listId && FromVersion(a) == FromVersion(b)
    ensures Forward(a) in Execute(f, a).effects <==> Forward(b) in Execute(f, b).effects
  {
  }

  /** Pinning happens only for dropped commands, and at most one object is pinned. */
  lemma PinsOnlyOnDrop(f: ListPropertyCommandFilter, command: ExecutableListCommand, pinned: ObservableObject)
    requires KeepReferenceTo(pinned) in Execute(f, command).effects
    ensures !Accepts(f, command)
    ensures !command.RemoveFromList?
    ensures Execute(f, command).effects == [CleanReferenceCache, KeepReferenceTo(pinned)]
    ensures command.value.observableObjectId.Some?
    ensures f.objectRegistry[command.value.observableObjectId.value] == pinned
  {
  }

  /** A dropped add or replace carrying a value built from a null simple object
      is taken for an observable object with a null id, and the registry
      lookup fails. */
  lemma DroppedNullSimpleObjectFails(f: ListPropertyCommandFilter, command: ExecutableListCommand)
    requires !command.RemoveFromList?
    requires command.value == OfSimpleObject(None)
    requires command.listId in f.listVersions.entries && !Accepts(f, command)
    ensures Execute(f, command) == Execution([CleanReferenceCache], Some(UnknownObservableObject(None)))
  {
  }
}
