/**
  Per-list version bookkeeping (ListPropertyMetaDataStore.java).

  Each synchronized list has a local version, an approved version and a FIFO
  of locally generated commands that other peers have not yet approved. The
  store maps list ids to this metadata; reading an unknown id and storing a
  known one both fail.
 */
module MetaDataStore {
  import opened Wrappers
  import opened Values
  import opened Errors
  import opened Commands

  datatype ListPropertyMetaData = ListPropertyMetaData(
    localVersion: Uuid,
    approvedVersion: Uuid,
    unapprovedCommands: seq<ListCommand>)

  datatype ListPropertyMetaDataStore = ListPropertyMetaDataStore(entries: map<Uuid, ListPropertyMetaData>)

  // ---------------------------------------------------------------------------
  // The store
  // ---------------------------------------------------------------------------

  /** `getMetaDataOrFail`: the stored metadata, or a failure for an unknown list. */
  function GetMetaDataOrFail(store: ListPropertyMetaDataStore, listId: Uuid)
    : (r: Result<ListPropertyMetaData, Failure>)
    ensures r.Ok? <==> listId in store.entries
    ensures r.Ok? ==> r.value == store.entries[listId]
    ensures r.Err? ==> r.error == NoMetaDataForList(listId)
  {
    if listId in store.entries then Ok(store.entries[listId]) else Err(NoMetaDataForList(listId))
  }

  /** `storeMetaDataOrFail`: registers metadata for a new list; never overwrites. */
  function StoreMetaDataOrFail(store: ListPropertyMetaDataStore, listId: Uuid, metaData: ListPropertyMetaData)
    : (r: Result<ListPropertyMetaDataStore, Failure>)
    ensures r.Ok? <==> listId !in store.entries
    ensures r.Err? ==> r.error == MetaDataAlreadyStored(listId)
    ensures r.Ok? ==> r.value.entries.Keys == store.entries.Keys + {listId}
  {
    if listId in store.entries then Err(MetaDataAlreadyStored(listId))
    else Ok(ListPropertyMetaDataStore(store.entries[listId := metaData]))
  }

  /** Storing then reading returns what was stored, and no other list is affected. */
  lemma StoreThenGet(store: ListPropertyMetaDataStore, listId: Uuid, metaData: ListPropertyMetaData, other: Uuid)
    requires listId !in store.entries
    ensures StoreMetaDataOrFail(store, listId, metaData).Ok?
    ensures GetMetaDataOrFail(StoreMetaDataOrFail(store, listId, metaData).value, listId) == Ok(metaData)
    ensures other != listId ==>
      GetMetaDataOrFail(StoreMetaDataOrFail(store, listId, metaData).value, other) == GetMetaDataOrFail(store, other)
  {
  }

  /** Storing for a known list fails, and the existing entry stays readable unchanged. */
  lemma StoreIsNotAnUpsert(store: ListPropertyMetaDataStore, listId: Uuid, metaData: ListPropertyMetaData)
    requires GetMetaDataOrFail(store, listId).Ok?
    ensures StoreMetaDataOrFail(store, listId, metaData) == Err(MetaDataAlreadyStored(listId))
    ensures GetMetaDataOrFail(store, listId) == Ok(store.entries[listId])
  {
  }

  /**
    Changing the metadata of a known list. In the source, `getMetaDataOrFail`
    hands out the stored object itself, and callers change it in place
    through its setters and its queue; here that in-place change is this
    replacement of the stored entry.
   */
  function UpdateMetaData(store: ListPropertyMetaDataStore, listId: Uuid, metaData: ListPropertyMetaData)
    : (r: ListPropertyMetaDataStore)
    requires listId in store.entries
    ensures r.entries.Keys == store.entries.Keys
  {
    ListPropertyMetaDataStore(store.entries[listId := metaData])
  }

  /** After an in-place change, reading the list returns the changed metadata
      and every other list reads as before. */
  lemma UpdateThenGet(store: ListPropertyMetaDataStore, listId: Uuid, metaData: ListPropertyMetaData, other: Uuid)
    requires listId in store.entries
    ensures GetMetaDataOrFail(UpdateMetaData(store, listId, metaData), listId) == Ok(metaData)
    ensures other != listId ==>
      GetMetaDataOrFail(UpdateMetaData(store, listId, metaData), other) == GetMetaDataOrFail(store, other)
  {
  }

  // ---------------------------------------------------------------------------
  // The metadata of one list
  // ---------------------------------------------------------------------------

  /** `new ListPropertyMetaData(initialLocalVersion, initialApprovedVersion)` */
  function NewMetaData(initialLocalVersion: Uuid, initialApprovedVersion: Uuid): ListPropertyMetaData {
    ListPropertyMetaData(initialLocalVersion, initialApprovedVersion, [])
  }

  function SetLocalVersion(m: ListPropertyMetaData, newVersion: Uuid): ListPropertyMetaData {
    m.(localVersion := newVersion)
  }

  function SetApprovedVersion(m: ListPropertyMetaData, newVersion: Uuid): ListPropertyMetaData {
    m.(approvedVersion := newVersion)
  }

  /** `getUnapprovedCommands()`: the queue view of the unapproved commands. */
  function UnapprovedCommands(m: ListPropertyMetaData): seq<ListCommand> {
    m.unapprovedCommands
  }

  /** `getUnapprovedCommandsAsList()`: the list view of the very same collection. */
  function UnapprovedCommandsAsList(m: ListPropertyMetaData): seq<ListCommand> {
    m.unapprovedCommands
  }

  /** `Queue.offer` on the returned queue: appends at the tail. */
  function OfferUnapproved(m: ListPropertyMetaData, c: ListCommand): ListPropertyMetaData {
    m.(unapprovedCommands := m.unapprovedCommands + [c])
  }

  /** `Queue.poll` on the returned queue: removes the head, or gives `null` when empty. */
  function PollUnapproved(m: ListPropertyMetaData): Option<(ListCommand, ListPropertyMetaData)> {
    if |m.unapprovedCommands| == 0 then None
    else Some((m.unapprovedCommands[0], m.(unapprovedCommands := m.unapprovedCommands[1..])))
  }

  /** A fresh instance carries the given versions and no unapproved command. */
  lemma NewMetaDataHasEmptyQueue(initialLocalVersion: Uuid, initialApprovedVersion: Uuid)
    ensures NewMetaData(initialLocalVersion, initialApprovedVersion).localVersion == initialLocalVersion
    ensures NewMetaData(initialLocalVersion, initialApprovedVersion).approvedVersion == initialApprovedVersion
    ensures UnapprovedCommands(NewMetaData(initialLocalVersion, initialApprovedVersion)) == []
    ensures PollUnapproved(NewMetaData(initialLocalVersion, initialApprovedVersion)) == None
  {
  }

  /** Each setter changes its own version and nothing else. */
  lemma SettersChangeOneVersion(m: ListPropertyMetaData, newVersion: Uuid)
    ensures SetLocalVersion(m, newVersion).localVersion == newVersion
    ensures SetLocalVersion(m, newVersion).approvedVersion == m.approvedVersion
    ensures SetLocalVersion(m, newVersion).unapprovedCommands == m.unapprovedCommands
    ensures SetApprovedVersion(m, newVersion).approvedVersion == newVersion
    ensures SetApprovedVersion(m, newVersion).localVersion == m.localVersion
    ensures SetApprovedVersion(m, newVersion).unapprovedCommands == m.unapprovedCommands
  {
  }

  /** The queue and list views expose one collection: what is offered through
      the queue shows up at the end of the list. */
  lemma QueueAndListViewsAgree(m: ListPropertyMetaData, c: ListCommand)
    ensures UnapprovedCommands(m) == UnapprovedCommandsAsList(m)
    ensures UnapprovedCommandsAsList(OfferUnapproved(m, c)) == UnapprovedCommands(m) + [c]
  {
  }

  /** FIFO: offering at the tail commutes with polling at the head, and an
      element offered to an empty queue is the next one polled. */
  lemma OfferThenPollIsFifo(m: ListPropertyMetaData, c: ListCommand)
    ensures |m.unapprovedCommands| == 0 ==> PollUnapproved(OfferUnapproved(m, c)) == Some((c, m))
    ensures |m.unapprovedCommands| > 0 ==>
      PollUnapproved(OfferUnapproved(m, c))
        == Some((PollUnapproved(m).value.0, OfferUnapproved(PollUnapproved(m).value.1, c)))
  {
    if |m.unapprovedCommands| > 0 {
      assert (m.unapprovedCommands + [c])[1..] == m.unapprovedCommands[1..] + [c];
    } else {
      assert (m.unapprovedCommands + [c])[1..] == m.unapprovedCommands;
    }
  }

  // ---------------------------------------------------------------------------
  // The version chain
  // ---------------------------------------------------------------------------

  /**
    What the getters' comments document about the unapproved queue: the
    approved version is the `from` of the oldest unapproved command, the
    local version the `to` of the newest one, and the two coincide when
    nothing is unapproved. The comment's other half, that with nothing
    pending the approved version is the `to` of the newest remote command,
    is not stated: no history of remote commands is kept here. The plain
    setters do not maintain it; callers must.
   */
  predicate DocumentedEnds(m: ListPropertyMetaData) {
    var q := m.unapprovedCommands;
    && (|q| == 0 ==> m.localVersion == m.approvedVersion)
    && (|q| > 0 ==> FromVersion(q[0]) == m.approvedVersion && ToVersion(q[|q| - 1]) == m.localVersion)
  }

  /** Consecutive unapproved commands continue one another's versions: each
      local command was built on the local version of its time. The comments
      do not state this; it is what makes the documented ends survive approval. */
  predicate Linked(q: seq<ListCommand>) {
    forall i :: 0 < i < |q| ==> ToVersion(q[i - 1]) == FromVersion(q[i])
  }

  /** The documented ends together with the per-link condition. */
  predicate Chained(m: ListPropertyMetaData) {
    DocumentedEnds(m) && Linked(m.unapprovedCommands)
  }

  /** Replays the version changes of `q` from `start`: the version reached, or
      `None` as soon as a command does not start where the previous one ended. */
  function ReplayVersions(start: Uuid, q: seq<ListCommand>): Option<Uuid>
    decreases |q|
  {
    if |q| == 0 then Some(start)
    else if FromVersion(q[0]) == start then ReplayVersions(ToVersion(q[0]), q[1..])
    else None
  }

  lemma {:induction false} ReplayReachesEnd(start: Uuid, q: seq<ListCommand>, end: Uuid)
    ensures ReplayVersions(start, q) == Some(end) <==>
      && Linked(q)
      && (|q| == 0 ==> start == end)
      && (|q| > 0 ==> FromVersion(q[0]) == start && ToVersion(q[|q| - 1]) == end)
    decreases |q|
  {
    if |q| > 0 {
      var rest := q[1..];
      ReplayReachesEnd(ToVersion(q[0]), rest, end);
      if Linked(q) {
        assert Linked(rest) by {
          forall i | 0 < i < |rest|
            ensures ToVersion(rest[i - 1]) == FromVersion(rest[i])
          {
            assert rest[i - 1] == q[i] && rest[i] == q[i + 1];
          }
        }
      }
      if ReplayVersions(start, q) == Some(end) {
        assert FromVersion(q[0]) == start;
        forall i | 0 < i < |q|
          ensures ToVersion(q[i - 1]) == FromVersion(q[i])
        {
          if i > 1 {
            assert q[i - 1] == rest[i - 2] && q[i] == rest[i - 1];
          }
        }
      }
    }
  }

  /** The chain invariant holds exactly when replaying the unapproved commands
      from the approved version arrives at the local version. */
  lemma ChainedIffReplayReachesLocal(m: ListPropertyMetaData)
    ensures Chained(m) <==> ReplayVersions(m.approvedVersion, m.unapprovedCommands) == Some(m.localVersion)
  {
    ReplayReachesEnd(m.approvedVersion, m.unapprovedCommands, m.localVersion);
  }

  /** Fresh metadata satisfies the chain, and its documented ends, exactly
      when it starts with equal local and approved versions. */
  lemma NewMetaDataChainedIffVersionsAgree(initialLocalVersion: Uuid, initialApprovedVersion: Uuid)
    ensures Chained(NewMetaData(initialLocalVersion, initialApprovedVersion))
      <==> initialLocalVersion == initialApprovedVersion
    ensures DocumentedEnds(NewMetaData(initialLocalVersion, initialApprovedVersion))
      <==> initialLocalVersion == initialApprovedVersion
  {
  }

  /** Queueing a local command built on the local version, then moving the
      local version to its `to`, keeps the chain. */
  lemma RecordingLocalCommandKeepsChain(m: ListPropertyMetaData, c: ListCommand)
    requires Chained(m)
    requires FromVersion(c) == m.localVersion
    ensures Chained(SetLocalVersion(OfferUnapproved(m, c), ToVersion(c)))
  {
  }

  /** Polling the oldest unapproved command once it is approved, and moving the
      approved version to its `to`, keeps the chain. */
  lemma ApprovingOldestKeepsChain(m: ListPropertyMetaData)
    requires Chained(m)
    requires |m.unapprovedCommands| > 0
    ensures PollUnapproved(m).Some?
    ensures Chained(SetApprovedVersion(PollUnapproved(m).value.1, ToVersion(PollUnapproved(m).value.0)))
  {
  }

  /** The plain setters do not enforce even the documented ends: moving only
      the local version of a consistent, empty-queue list breaks them. */
  lemma SetLocalVersionCanBreakChain()
    ensures Chained(NewMetaData(Uuid(0), Uuid(0)))
    ensures !DocumentedEnds(SetLocalVersion(NewMetaData(Uuid(0), Uuid(0)), Uuid(1)))
  {
  }

  /** The documented ends alone are not kept by approving the oldest command:
      when the second command does not start where the first ended, the new
      approved version is not the `from` of the new oldest command. */
  lemma DocumentedEndsAloneDoNotSurviveApproval()
    ensures var first := RemoveFromList(Uuid(9), 0, VersionChange(Uuid(0), Uuid(1)));
            var second := RemoveFromList(Uuid(9), 0, VersionChange(Uuid(2), Uuid(3)));
            var m := ListPropertyMetaData(Uuid(3), Uuid(0), [first, second]);
            && DocumentedEnds(m)
            && !Linked(m.unapprovedCommands)
            && !DocumentedEnds(SetApprovedVersion(PollUnapproved(m).value.1, ToVersion(first)))
  {
  }

  /** The versions a list passes through: the approved version, then the `to`
      of every unapproved command in order. */
  function VersionTrail(m: ListPropertyMetaData): (trail: seq<Uuid>)
    ensures |trail| == |m.unapprovedCommands| + 1
  {
    [m.approvedVersion] + seq(|m.unapprovedCommands|, i requires 0 <= i < |m.unapprovedCommands| =>
      ToVersion(m.unapprovedCommands[i]))
  }

  /** Versions are random UUIDs, so a list never revisits one. */
  predicate FreshVersions(m: ListPropertyMetaData) {
    var trail := VersionTrail(m);
    forall i, j :: 0 <= i < j < |trail| ==> trail[i] != trail[j]
  }

  /** With never-repeating versions, the local and approved versions agree
      exactly when no local command awaits approval. */
  lemma LocalEqualsApprovedIffQueueEmpty(m: ListPropertyMetaData)
    requires Chained(m)
    requires FreshVersions(m)
    ensures m.localVersion == m.approvedVersion <==> |m.unapprovedCommands| == 0
  {
    var q := m.unapprovedCommands;
    if |q| > 0 {
      var trail := VersionTrail(m);
      assert trail[0] == m.approvedVersion;
      assert trail[|q|] == ToVersion(q[|q| - 1]);
    }
  }
}
