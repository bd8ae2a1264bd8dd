/**
  The in-memory personal-data store: synchronization of one account and the fleet-wide retention
  sweep, written as the imperative operations they are and proved against the functions of
  `PersonalSync`.
 */
module PersonalStore {
  import opened Common
  import opened PersonalSync

  const MAX_SYNC_BATCH_ITEMS: nat := 300
  const MAX_CLIENT_CLOCK_SKEW: int := 300_000_000_000
  const MAX_METADATA_BYTES: nat := 4096
  const MAX_PLAY_DURATION_MS: nat := 30 * 24 * 60 * 60 * 1000
  const MAX_STATION_ID_LEN: nat := 256

  datatype FavouriteUpsert = FavouriteUpsert(id: Uuid, stationId: string, addedAt: Instant, updatedAt: Instant)

  /** `metadataIsObject` says whether the optional JSON text is an object. */
  datatype HistoryUpsert = HistoryUpsert(id: Uuid, stationId: string, startedAt: Instant, lastPlayedAt: Instant,
                                         endedAt: Option<Instant>, playDurationMs: Option<nat>,
                                         metadata: Option<string>, metadataIsObject: bool, updatedAt: Instant)

  datatype RecordDelete = RecordDelete(id: Uuid, updatedAt: Instant)

  datatype SyncRequest = SyncRequest(since: nat,
                                     favouriteUpserts: seq<FavouriteUpsert>, favouriteDeletes: seq<RecordDelete>,
                                     historyUpserts: seq<HistoryUpsert>, historyDeletes: seq<RecordDelete>)

  datatype SyncError = Validation | FavouriteLimitExceeded | HistoryLimitExceeded

  datatype Entry<C> = Entry(id: Uuid, row: Row<C>)

  datatype Page<C> = Page(entries: seq<Entry<C>>, cursor: nat)

  datatype SyncOutcome = SyncOutcome(serverRevision: nat, favourites: seq<Entry<Favourite>>, history: seq<Entry<History>>)

  datatype Store = Store(favourites: Rows<Favourite>, history: Rows<History>, revision: nat)

  // ---------------------------------------------------------------------------------------------
  // Request validation

  predicate ControlChar(c: char) {
    c < ' ' || '\U{7f}' <= c <= '\U{9f}'
  }

  predicate ValidStationId(s: string) {
    0 < |s| <= MAX_STATION_ID_LEN && forall i :: 0 <= i < |s| ==> !ControlChar(s[i])
  }

  predicate ValidTimestamp(at: Instant, now: Instant) {
    at <= now + MAX_CLIENT_CLOCK_SKEW
  }

  predicate ValidHistory(u: HistoryUpsert, now: Instant) {
    && ValidStationId(u.stationId)
    && ValidTimestamp(u.startedAt, now) && ValidTimestamp(u.lastPlayedAt, now) && u.startedAt <= u.lastPlayedAt
    && (u.endedAt.Some? ==> ValidTimestamp(u.endedAt.value, now) && u.startedAt <= u.endedAt.value)
    && (u.playDurationMs.Some? ==> u.playDurationMs.value <= MAX_PLAY_DURATION_MS)
    && (u.metadata.Some? ==> u.metadataIsObject && |u.metadata.value| <= MAX_METADATA_BYTES)
    && ValidTimestamp(u.updatedAt, now)
  }

  function FavouriteIds(r: SyncRequest): seq<Uuid> {
    seq(|r.favouriteUpserts|, i requires 0 <= i < |r.favouriteUpserts| => r.favouriteUpserts[i].id)
    + seq(|r.favouriteDeletes|, i requires 0 <= i < |r.favouriteDeletes| => r.favouriteDeletes[i].id)
  }

  function HistoryIds(r: SyncRequest): seq<Uuid> {
    seq(|r.historyUpserts|, i requires 0 <= i < |r.historyUpserts| => r.historyUpserts[i].id)
    + seq(|r.historyDeletes|, i requires 0 <= i < |r.historyDeletes| => r.historyDeletes[i].id)
  }

  predicate Distinct(ids: seq<Uuid>) {
    forall i, j :: 0 <= i < j < |ids| ==> ids[i] != ids[j]
  }

  predicate ValidRequest(r: SyncRequest, now: Instant) {
    && |r.favouriteUpserts| <= MAX_SYNC_BATCH_ITEMS && |r.favouriteDeletes| <= MAX_SYNC_BATCH_ITEMS
    && |r.historyUpserts| <= MAX_SYNC_BATCH_ITEMS && |r.historyDeletes| <= MAX_SYNC_BATCH_ITEMS
    && Distinct(FavouriteIds(r)) && Distinct(HistoryIds(r))
    && (forall i :: 0 <= i < |r.favouriteUpserts| ==>
          var u := r.favouriteUpserts[i];
          ValidStationId(u.stationId) && ValidTimestamp(u.addedAt, now) && ValidTimestamp(u.updatedAt, now))
    && (forall i :: 0 <= i < |r.historyUpserts| ==> ValidHistory(r.historyUpserts[i], now))
  }

  // ---------------------------------------------------------------------------------------------
  // A request as a sequence of changes: upserts first, then deletes

  function FavouriteUpsertChange(u: FavouriteUpsert): Change<Favourite> {
    Upsert(u.id, u.updatedAt, Favourite(Some(u.stationId), u.addedAt))
  }

  function FavouriteDeleteChange(d: RecordDelete): Change<Favourite> {
    Delete(d.id, d.updatedAt, Favourite(None, d.updatedAt))
  }

  function HistoryUpsertChange(u: HistoryUpsert): Change<History> {
    Upsert(u.id, u.updatedAt,
           History(Some(u.stationId), u.startedAt, u.lastPlayedAt, u.endedAt, u.playDurationMs, u.metadata))
  }

  function HistoryDeleteChange(d: RecordDelete): Change<History> {
    Delete(d.id, d.updatedAt, History(None, d.updatedAt, d.updatedAt, None, None, None))
  }

  function FavouriteUpserts(us: seq<FavouriteUpsert>): seq<Change<Favourite>> {
    seq(|us|, i requires 0 <= i < |us| => FavouriteUpsertChange(us[i]))
  }

  function FavouriteDeletes(ds: seq<RecordDelete>): seq<Change<Favourite>> {
    seq(|ds|, i requires 0 <= i < |ds| => FavouriteDeleteChange(ds[i]))
  }

  function HistoryUpserts(us: seq<HistoryUpsert>): seq<Change<History>> {
    seq(|us|, i requires 0 <= i < |us| => HistoryUpsertChange(us[i]))
  }

  function HistoryDeletes(ds: seq<RecordDelete>): seq<Change<History>> {
    seq(|ds|, i requires 0 <= i < |ds| => HistoryDeleteChange(ds[i]))
  }

  function FavouriteChanges(r: SyncRequest): seq<Change<Favourite>> {
    FavouriteUpserts(r.favouriteUpserts) + FavouriteDeletes(r.favouriteDeletes)
  }

  function HistoryChanges(r: SyncRequest): seq<Change<History>> {
    HistoryUpserts(r.historyUpserts) + HistoryDeletes(r.historyDeletes)
  }

  // ---------------------------------------------------------------------------------------------
  // Delta and echo

  function Ids<C>(rows: Rows<C>, owner: Uuid): set<Uuid> {
    set key | key in rows && key.owner == owner :: key.id
  }

  /** One account's record ids in ascending order. */
  function IdList<C>(rows: Rows<C>, owner: Uuid): (ids: seq<Uuid>)
    ensures forall id :: id in ids <==> Key(owner, id) in rows
    ensures Distinct(ids)
  {
    var ids := Ascending(Ids(rows, owner));
    assert forall id :: Key(owner, id) in rows ==> Key(owner, id).id in Ids(rows, owner);
    ids
  }

  predicate Selected<C>(row: Row<C>, id: Uuid, since: nat, pushed: set<Uuid>) {
    row.revision > since || id in pushed
  }

  function Scan<C>(rows: Rows<C>, owner: Uuid, ids: seq<Uuid>, since: nat, pushed: set<Uuid>): Page<C>
    requires forall id :: id in ids ==> Key(owner, id) in rows
  {
    if ids == [] then Page([], since)
    else
      var id := ids[|ids| - 1];
      var row := rows[Key(owner, id)];
      var page := Scan(rows, owner, ids[..|ids| - 1], since, pushed);
      Page(if Selected(row, id, since, pushed) then page.entries + [Entry(id, row)] else page.entries,
           if row.revision > page.cursor then row.revision else page.cursor)
  }

  lemma ScanOneMore<C>(rows: Rows<C>, owner: Uuid, ids: seq<Uuid>, i: nat, since: nat, pushed: set<Uuid>)
    requires i < |ids| && forall id :: id in ids ==> Key(owner, id) in rows
    ensures forall id :: id in ids[..i] || id in ids[..i + 1] ==> Key(owner, id) in rows
    ensures var page := Scan(rows, owner, ids[..i], since, pushed);
            var row := rows[Key(owner, ids[i])];
            Scan(rows, owner, ids[..i + 1], since, pushed)
            == Page(if Selected(row, ids[i], since, pushed) then page.entries + [Entry(ids[i], row)] else page.entries,
                    if row.revision > page.cursor then row.revision else page.cursor)
  {
    assert ids[..i + 1][..i] == ids[..i] && ids[i] in ids;
  }

  /** Stable insertion after every entry that is not newer. */
  function InsertByRevision<C>(entries: seq<Entry<C>>, e: Entry<C>): seq<Entry<C>> {
    if entries == [] || entries[|entries| - 1].row.revision <= e.row.revision then entries + [e]
    else InsertByRevision(entries[..|entries| - 1], e) + [entries[|entries| - 1]]
  }

  function SortByRevision<C>(entries: seq<Entry<C>>): seq<Entry<C>> {
    if entries == [] then []
    else InsertByRevision(SortByRevision(entries[..|entries| - 1]), entries[|entries| - 1])
  }

  function DeltaAndEcho<C>(rows: Rows<C>, owner: Uuid, since: nat, pushed: set<Uuid>): Page<C> {
    var page := Scan(rows, owner, IdList(rows, owner), since, pushed);
    Page(SortByRevision(page.entries), page.cursor)
  }

  ghost predicate SortedByRevision<C>(entries: seq<Entry<C>>) {
    forall i, j :: 0 <= i < j < |entries| ==> entries[i].row.revision <= entries[j].row.revision
  }

  lemma {:induction false} InsertKeepsEntries<C>(entries: seq<Entry<C>>, e: Entry<C>)
    ensures multiset(InsertByRevision(entries, e)) == multiset(entries) + multiset{e}
  {
    if entries != [] && entries[|entries| - 1].row.revision > e.row.revision {
      InsertKeepsEntries(entries[..|entries| - 1], e);
      assert entries == entries[..|entries| - 1] + [entries[|entries| - 1]];
    }
  }

  ghost predicate NoneAbove<C>(entries: seq<Entry<C>>, revision: nat) {
    forall i :: 0 <= i < |entries| ==> entries[i].row.revision <= revision
  }

  lemma {:induction false} InsertStaysBelow<C>(entries: seq<Entry<C>>, e: Entry<C>, revision: nat)
    requires NoneAbove(entries, revision) && e.row.revision <= revision
    ensures NoneAbove(InsertByRevision(entries, e), revision)
  {
    if entries != [] && entries[|entries| - 1].row.revision > e.row.revision {
      InsertStaysBelow(entries[..|entries| - 1], e, revision);
    }
  }

  lemma {:induction false} InsertKeepsOrder<C>(entries: seq<Entry<C>>, e: Entry<C>)
    requires SortedByRevision(entries)
    ensures SortedByRevision(InsertByRevision(entries, e))
  {
    if entries != [] && entries[|entries| - 1].row.revision > e.row.revision {
      var front := entries[..|entries| - 1];
      InsertKeepsOrder(front, e);
      InsertStaysBelow(front, e, entries[|entries| - 1].row.revision);
    }
  }

  lemma {:induction false} SortIsSorted<C>(entries: seq<Entry<C>>)
    ensures SortedByRevision(SortByRevision(entries))
    ensures multiset(SortByRevision(entries)) == multiset(entries)
  {
    if entries != [] {
      SortIsSorted(entries[..|entries| - 1]);
      InsertKeepsOrder(SortByRevision(entries[..|entries| - 1]), entries[|entries| - 1]);
      InsertKeepsEntries(SortByRevision(entries[..|entries| - 1]), entries[|entries| - 1]);
      assert entries == entries[..|entries| - 1] + [entries[|entries| - 1]];
    }
  }

  lemma {:induction false} ScanCollects<C>(rows: Rows<C>, owner: Uuid, ids: seq<Uuid>, since: nat, pushed: set<Uuid>)
    requires forall id :: id in ids ==> Key(owner, id) in rows
    ensures var page := Scan(rows, owner, ids, since, pushed);
            && (forall id :: id in ids && Selected(rows[Key(owner, id)], id, since, pushed) ==> Entry(id, rows[Key(owner, id)]) in page.entries)
            && (forall e :: e in page.entries ==> e.id in ids && e.row == rows[Key(owner, e.id)] && Selected(e.row, e.id, since, pushed))
            && since <= page.cursor
            && (forall id :: id in ids ==> rows[Key(owner, id)].revision <= page.cursor)
            && (page.cursor == since || exists id :: id in ids && rows[Key(owner, id)].revision == page.cursor)
  {
    if ids != [] {
      var last := ids[|ids| - 1];
      ScanCollects(rows, owner, ids[..|ids| - 1], since, pushed);
      assert ids == ids[..|ids| - 1] + [last];
      var page := Scan(rows, owner, ids, since, pushed);
      if page.cursor == rows[Key(owner, last)].revision {
        assert last in ids;
      }
    }
  }

  lemma SortKeepsEntries<C>(entries: seq<Entry<C>>, e: Entry<C>)
    ensures e in SortByRevision(entries) <==> e in entries
  {
    SortIsSorted(entries);
    assert e in SortByRevision(entries) <==> e in multiset(SortByRevision(entries));
    assert e in entries <==> e in multiset(entries);
  }

  /** No record is listed twice. */
  ghost predicate OncePerRecord<C>(entries: seq<Entry<C>>) {
    forall i, j :: 0 <= i < j < |entries| ==> entries[i].id != entries[j].id
  }

  lemma {:induction false} ScanListsOnce<C>(rows: Rows<C>, owner: Uuid, ids: seq<Uuid>, since: nat, pushed: set<Uuid>)
    requires Distinct(ids) && forall id :: id in ids ==> Key(owner, id) in rows
    ensures OncePerRecord(Scan(rows, owner, ids, since, pushed).entries)
    ensures forall e :: e in Scan(rows, owner, ids, since, pushed).entries ==> e.id in ids
  {
    if ids != [] {
      var front := ids[..|ids| - 1];
      ScanListsOnce(rows, owner, front, since, pushed);
      assert ids[|ids| - 1] !in front && ids == front + [ids[|ids| - 1]];
    }
  }

  lemma {:induction false} InsertListsOnce<C>(entries: seq<Entry<C>>, e: Entry<C>)
    requires OncePerRecord(entries) && forall x :: x in entries ==> x.id != e.id
    ensures OncePerRecord(InsertByRevision(entries, e))
    ensures forall x :: x in InsertByRevision(entries, e) ==> x == e || x in entries
  {
    if entries != [] && entries[|entries| - 1].row.revision > e.row.revision {
      var front := entries[..|entries| - 1];
      var last := entries[|entries| - 1];
      assert forall x :: x in front ==> x in entries;
      InsertListsOnce(front, e);
      forall x | x in InsertByRevision(front, e) ensures x.id != last.id {
        assert x == e || x in front;
        assert last in entries;
      }
    }
  }

  lemma {:induction false} SortListsOnce<C>(entries: seq<Entry<C>>)
    requires OncePerRecord(entries)
    ensures OncePerRecord(SortByRevision(entries))
    ensures forall x :: x in SortByRevision(entries) ==> x in entries
  {
    if entries != [] {
      var front := entries[..|entries| - 1];
      SortListsOnce(front);
      InsertListsOnce(SortByRevision(front), entries[|entries| - 1]);
    }
  }

  /** The page holds exactly the account's rows past `since` or pushed, as stored now. */
  ghost predicate ExactEntries<C>(rows: Rows<C>, owner: Uuid, since: nat, pushed: set<Uuid>, entries: seq<Entry<C>>) {
    && (forall id :: Key(owner, id) in rows && Selected(rows[Key(owner, id)], id, since, pushed) ==>
          Entry(id, rows[Key(owner, id)]) in entries)
    && (forall e :: e in entries ==>
          Key(owner, e.id) in rows && e.row == rows[Key(owner, e.id)] && Selected(e.row, e.id, since, pushed))
  }

  /** The cursor is the greatest of `since` and the account's revisions. */
  ghost predicate ExactCursor<C>(rows: Rows<C>, owner: Uuid, since: nat, cursor: nat) {
    && since <= cursor
    && (forall id :: Key(owner, id) in rows ==> rows[Key(owner, id)].revision <= cursor)
    && (cursor == since || exists id :: Key(owner, id) in rows && rows[Key(owner, id)].revision == cursor)
  }

  lemma ScanIsExact<C>(rows: Rows<C>, owner: Uuid, since: nat, pushed: set<Uuid>)
    ensures ExactEntries(rows, owner, since, pushed, Scan(rows, owner, IdList(rows, owner), since, pushed).entries)
    ensures ExactCursor(rows, owner, since, Scan(rows, owner, IdList(rows, owner), since, pushed).cursor)
  {
    ScanCollects(rows, owner, IdList(rows, owner), since, pushed);
  }

  lemma SortKeepsExactness<C>(rows: Rows<C>, owner: Uuid, since: nat, pushed: set<Uuid>, entries: seq<Entry<C>>)
    requires ExactEntries(rows, owner, since, pushed, entries)
    ensures ExactEntries(rows, owner, since, pushed, SortByRevision(entries))
  {
    var sorted := SortByRevision(entries);
    forall e | e in sorted
      ensures Key(owner, e.id) in rows && e.row == rows[Key(owner, e.id)] && Selected(e.row, e.id, since, pushed)
    {
      SortKeepsEntries(entries, e);
    }
    forall id | Key(owner, id) in rows && Selected(rows[Key(owner, id)], id, since, pushed)
      ensures Entry(id, rows[Key(owner, id)]) in sorted
    {
      SortKeepsEntries(entries, Entry(id, rows[Key(owner, id)]));
    }
  }

  /**
    What a client receives: exactly the account's rows past its cursor and the rows it pushed, each once, as
    they are stored now and in revision order, with the least cursor that no row of the account exceeds.
   */
  lemma DeltaAndEchoIsExact<C>(rows: Rows<C>, owner: Uuid, since: nat, pushed: set<Uuid>)
    ensures var page := DeltaAndEcho(rows, owner, since, pushed);
            && ExactEntries(rows, owner, since, pushed, page.entries)
            && OncePerRecord(page.entries) && SortedByRevision(page.entries)
            && ExactCursor(rows, owner, since, page.cursor)
  {
    ScanIsExact(rows, owner, since, pushed);
    var page := Scan(rows, owner, IdList(rows, owner), since, pushed);
    SortKeepsExactness(rows, owner, since, pushed, page.entries);
    SortIsSorted(page.entries);
    ScanListsOnce(rows, owner, IdList(rows, owner), since, pushed);
    SortListsOnce(page.entries);
  }

  // ---------------------------------------------------------------------------------------------
  // The lock sections of one synchronization and of one sweep

  function PushFavourites(st: Store, owner: Uuid, cs: seq<Change<Favourite>>): Store {
    var t := ApplyAll(Stamped(st.favourites, st.revision), owner, cs);
    st.(favourites := t.rows, revision := t.revision)
  }

  function PushHistory(st: Store, owner: Uuid, cs: seq<Change<History>>, now: Instant): Store {
    var t := ExpireOwner(ApplyAll(Stamped(st.history, st.revision), owner, cs), owner, now);
    st.(history := t.rows, revision := t.revision)
  }

  function Respond(st: Store, owner: Uuid, since: nat, favouriteIds: set<Uuid>, historyIds: set<Uuid>): SyncOutcome {
    var f := DeltaAndEcho(st.favourites, owner, since, favouriteIds);
    var h := DeltaAndEcho(st.history, owner, since, historyIds);
    SyncOutcome(if f.cursor >= h.cursor then f.cursor else h.cursor, f.entries, h.entries)
  }

  function SweepHistory(st: Store, now: Instant): Store {
    var t := ExpireFleet(Stamped(st.history, st.revision), now);
    st.(history := Retain(t.rows, now - TOMBSTONE_RETENTION), revision := t.revision)
  }

  function PurgeHistory(st: Store, now: Instant): Store {
    Store(st.favourites, Retain(st.history, now - TOMBSTONE_RETENTION), st.revision)
  }

  function SweepFavourites(st: Store, now: Instant): Store {
    st.(favourites := Retain(st.favourites, now - TOMBSTONE_RETENTION))
  }

  function Elements(ids: seq<Uuid>): set<Uuid> {
    set id | id in ids
  }

  /** One whole synchronization when nothing interleaves. A limit error keeps what was merged before it. */
  function Synchronized(st: Store, owner: Uuid, r: SyncRequest, now: Instant): (Store, Result<SyncOutcome, SyncError>) {
    if !ValidRequest(r, now) then (st, Err(Validation))
    else
      var st1 := PushFavourites(st, owner, FavouriteChanges(r));
      if |LiveKeys(st1.favourites, owner)| > MAX_FAVOURITE_RECORDS then (st1, Err(FavouriteLimitExceeded))
      else
        var st2 := PushHistory(st1, owner, HistoryChanges(r), now);
        if |LiveKeys(st2.history, owner)| > MAX_HISTORY_RECORDS then (st2, Err(HistoryLimitExceeded))
        else (st2, Ok(Respond(st2, owner, r.since, Elements(FavouriteIds(r)), Elements(HistoryIds(r)))))
  }

  lemma ApplyOneMore<C>(s: Stamped<C>, owner: Uuid, cs: seq<Change<C>>, i: nat)
    requires i < |cs|
    ensures ApplyAll(s, owner, cs[..i + 1]) == Apply(ApplyAll(s, owner, cs[..i]), owner, cs[i])
  {
    assert cs[..i + 1][..i] == cs[..i];
  }

  lemma ExpireOneMore(s: Stamped<History>, owners: seq<Uuid>, i: nat, now: Instant)
    requires i < |owners|
    ensures ExpireOwners(s, owners[..i + 1], now) == ExpireOwner(ExpireOwners(s, owners[..i], now), owners[i], now)
  {
    assert owners[..i + 1][..i] == owners[..i];
  }

  /** The live plays of all accounts that started before retention. */
  function ExpiredKeys(rows: Rows<History>, now: Instant): set<Key> {
    set key | key in rows && IsExpired(rows[key], now - HISTORY_RETENTION)
  }

  /** The same, told by the 90 days. */
  ghost function OldPlays(rows: Rows<History>, now: Instant): set<Key> {
    set key | key in rows && rows[key].deletedAt == None && rows[key].content.startedAt < now - 7_776_000_000_000_000
  }

  lemma RetainIsNoLarger<C>(rows: Rows<C>, cutoff: Instant)
    ensures |Retain(rows, cutoff)| <= |rows|
  {
    SubsetIsNoLarger(Retain(rows, cutoff).Keys, rows.Keys);
  }

  // ---------------------------------------------------------------------------------------------
  // The store object

  class PersonalDataStore {
    var favourites: Rows<Favourite>
    var history: Rows<History>
    var revision: nat

    constructor ()
      ensures State() == Store(map[], map[], 0)
    {
      favourites, history, revision := map[], map[], 0;
    }

    function State(): Store
      reads this
    {
      Store(favourites, history, revision)
    }

    method Synchronize(owner: Uuid, r: SyncRequest, now: Instant) returns (reply: Result<SyncOutcome, SyncError>)
      modifies this
      ensures (State(), reply) == Synchronized(old(State()), owner, r, now)
    {
      if !ValidRequest(r, now) {
        return Err(Validation);
      }
      MergeFavourites(owner, r);
      if |LiveKeys(favourites, owner)| > MAX_FAVOURITE_RECORDS {
        return Err(FavouriteLimitExceeded);
      }
      MergeHistory(owner, r);
      ExpireHistory(owner, now);
      if |LiveKeys(history, owner)| > MAX_HISTORY_RECORDS {
        return Err(HistoryLimitExceeded);
      }
      var f := CollectPage(favourites, owner, r.since, Elements(FavouriteIds(r)));
      var h := CollectPage(history, owner, r.since, Elements(HistoryIds(r)));
      reply := Ok(SyncOutcome(if f.cursor >= h.cursor then f.cursor else h.cursor, f.entries, h.entries));
    }

    method MergeFavourites(owner: Uuid, r: SyncRequest)
      modifies this`favourites, this`revision
      ensures State() == PushFavourites(old(State()), owner, FavouriteChanges(r))
    {
      var merged := MergeBatch(Stamped(favourites, revision), owner, FavouriteChanges(r));
      favourites, revision := merged.rows, merged.revision;
    }

    method MergeHistory(owner: Uuid, r: SyncRequest)
      modifies this`history, this`revision
      ensures Stamped(history, revision) == ApplyAll(Stamped(old(history), old(revision)), owner, HistoryChanges(r))
    {
      var merged := MergeBatch(Stamped(history, revision), owner, HistoryChanges(r));
      history, revision := merged.rows, merged.revision;
    }

    method ExpireHistory(owner: Uuid, now: Instant)
      modifies this`history, this`revision
      ensures Stamped(history, revision) == ExpireOwner(Stamped(old(history), old(revision)), owner, now)
    {
      ghost var start := Stamped(history, revision);
      var expired := Ascending(ExpiredIds(history, owner, now - HISTORY_RETENTION));
      for i := 0 to |expired|
        invariant Stamped(history, revision) == ExpireRows(start, owner, expired[..i])
      {
        assert expired[..i + 1][..i] == expired[..i];
        var s := ExpireRow(Stamped(history, revision), Key(owner, expired[i]));
        history, revision := s.rows, s.revision;
      }
      assert expired[..|expired|] == expired;
    }

    method ExpireEveryOwner(now: Instant)
      modifies this`history, this`revision
      ensures Stamped(history, revision) == ExpireFleet(Stamped(old(history), old(revision)), now)
    {
      ghost var start := Stamped(history, revision);
      var owners := Ascending(Owners(history));
      for i := 0 to |owners|
        invariant Stamped(history, revision) == ExpireOwners(start, owners[..i], now)
      {
        ExpireOneMore(start, owners, i, now);
        ExpireHistory(owners[i], now);
      }
      assert owners[..|owners|] == owners;
    }

    /** Counts the plays it tombstones, and the rows of both collections it removes. */
    method SweepRetention(now: Instant) returns (expired: nat, removed: nat)
      modifies this
      ensures State() == SweepFavourites(SweepHistory(old(State()), now), now)
      ensures expired == |OldPlays(old(history), now)|
      ensures removed == |old(history)| - |history| + |old(favourites)| - |favourites|
    {
      ghost var before := Stamped(history, revision);
      assert ExpiredKeys(history, now) == OldPlays(history, now);
      expired := |ExpiredKeys(history, now)|;
      ExpireEveryOwner(now);
      ExpireFleetExact(before, now);
      RetainIsNoLarger(history, now - TOMBSTONE_RETENTION);
      RetainIsNoLarger(favourites, now - TOMBSTONE_RETENTION);
      removed := |history| + |favourites|;
      history := Retain(history, now - TOMBSTONE_RETENTION);
      favourites := Retain(favourites, now - TOMBSTONE_RETENTION);
      removed := removed - |history| - |favourites|;
    }
  }

  /** The loop over a batch, upserts before deletes, each change merged or tombstoned in turn. */
  method MergeBatch<C>(s: Stamped<C>, owner: Uuid, cs: seq<Change<C>>) returns (merged: Stamped<C>)
    ensures merged == ApplyAll(s, owner, cs)
  {
    merged := s;
    for i := 0 to |cs|
      invariant merged == ApplyAll(s, owner, cs[..i])
    {
      ApplyOneMore(s, owner, cs, i);
      merged := Apply(merged, owner, cs[i]);
    }
    assert cs[..|cs|] == cs;
  }

  /** The selection loop over one account's rows, followed by the stable sort. */
  method CollectPage<C>(rows: Rows<C>, owner: Uuid, since: nat, pushed: set<Uuid>) returns (page: Page<C>)
    ensures page == DeltaAndEcho(rows, owner, since, pushed)
  {
    var ids := IdList(rows, owner);
    assert forall i :: 0 <= i < |ids| ==> ids[i] in ids;
    var selected: seq<Entry<C>> := [];
    var cursor := since;
    for i := 0 to |ids|
      invariant Page(selected, cursor) == Scan(rows, owner, ids[..i], since, pushed)
    {
      ScanOneMore(rows, owner, ids, i, since, pushed);
      var row := rows[Key(owner, ids[i])];
      if row.revision > since || ids[i] in pushed {
        selected := selected + [Entry(ids[i], row)];
      }
      if row.revision > cursor {
        cursor := row.revision;
      }
    }
    assert ids[..|ids|] == ids;
    page := Page(SortByRevision(selected), cursor);
  }
}
