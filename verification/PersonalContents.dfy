/** What an accepted request leaves in the store, field by field of the request. */
module PersonalContents {
  import opened Common
  import opened PersonalSync
  import opened PersonalStore

  // ---------------------------------------------------------------------------------------------
  // One change per record

  /** The row after one change, told from the row before it; only its revision is left open. */
  ghost predicate Settled<C>(before: Rows<C>, after: Rows<C>, key: Key, c: Change<C>) {
    key in after &&
    match c
    case Upsert(_, at, content) =>
      if key in before && at <= before[key].updatedAt then after[key] == before[key]
      else after[key] == Row(content, at, None, after[key].revision)
    case Delete(_, at, stub) =>
      if key !in before then after[key] == Row(stub, at, Some(at), after[key].revision)
      else if before[key].deletedAt.Some? || at <= before[key].updatedAt then after[key] == before[key]
      else after[key] == Row(before[key].content, at, Some(at), after[key].revision)
  }

  ghost predicate DistinctRecords<C>(cs: seq<Change<C>>) {
    forall i, j :: 0 <= i < j < |cs| ==> cs[i].id != cs[j].id
  }

  ghost predicate SameAt<C>(before: Rows<C>, after: Rows<C>, key: Key) {
    (key in after <==> key in before) && (key in before ==> after[key] == before[key])
  }

  ghost predicate NamesNot<C>(cs: seq<Change<C>>, owner: Uuid, key: Key) {
    forall i :: 0 <= i < |cs| ==> Key(owner, cs[i].id) != key
  }

  lemma {:induction false} BatchLeaves<C>(s: Stamped<C>, owner: Uuid, cs: seq<Change<C>>, key: Key)
    requires NamesNot(cs, owner, key)
    ensures SameAt(s.rows, ApplyAll(s, owner, cs).rows, key)
  {
    if cs != [] {
      var t := ApplyAll(s, owner, cs[..|cs| - 1]);
      BatchLeaves(s, owner, cs[..|cs| - 1], key);
    }
  }

  /** A batch that names each record once settles every change against the row before the batch. */
  lemma {:induction false} BatchSettles<C>(s: Stamped<C>, owner: Uuid, cs: seq<Change<C>>, i: nat)
    requires DistinctRecords(cs) && i < |cs|
    ensures Settled(s.rows, ApplyAll(s, owner, cs).rows, Key(owner, cs[i].id), cs[i])
  {
    var front := cs[..|cs| - 1];
    var t := ApplyAll(s, owner, front);
    var key := Key(owner, cs[i].id);
    if i < |front| {
      BatchSettles(s, owner, front, i);
    } else {
      assert NamesNot(front, owner, key);
      BatchLeaves(s, owner, front, key);
    }
  }

  lemma FavouriteRecordsDistinct(r: SyncRequest)
    requires Distinct(FavouriteIds(r))
    ensures DistinctRecords(FavouriteChanges(r))
  {
    assert forall i :: 0 <= i < |FavouriteChanges(r)| ==> FavouriteChanges(r)[i].id == FavouriteIds(r)[i];
  }

  lemma HistoryRecordsDistinct(r: SyncRequest)
    requires Distinct(HistoryIds(r))
    ensures DistinctRecords(HistoryChanges(r))
  {
    assert forall i :: 0 <= i < |HistoryChanges(r)| ==> HistoryChanges(r)[i].id == HistoryIds(r)[i];
  }

  // ---------------------------------------------------------------------------------------------
  // Revisions are issued one by one

  ghost predicate Bears<C>(rows: Rows<C>, key: Key, n: nat) {
    key in rows && rows[key].revision == n
  }

  /** Some change of the batch gave its row this revision. */
  ghost predicate GivenByBatch<C>(rows: Rows<C>, owner: Uuid, cs: seq<Change<C>>, n: nat) {
    exists i :: 0 <= i < |cs| && Bears(rows, Key(owner, cs[i].id), n)
  }

  /** A batch that names each record once skips no revision: each it issued stands on a row it changed. */
  lemma {:induction false} BatchSkipsNoRevision<C>(s: Stamped<C>, owner: Uuid, cs: seq<Change<C>>, n: nat)
    requires DistinctRecords(cs) && s.revision < n <= ApplyAll(s, owner, cs).revision
    ensures GivenByBatch(ApplyAll(s, owner, cs).rows, owner, cs, n)
  {
    if cs != [] {
      var last := |cs| - 1;
      var front := cs[..last];
      var t := ApplyAll(s, owner, front);
      if n <= t.revision {
        BatchSkipsNoRevision(s, owner, front, n);
        var i :| 0 <= i < |front| && Bears(t.rows, Key(owner, front[i].id), n);
        assert cs[i] == front[i];
        assert Bears(ApplyAll(s, owner, cs).rows, Key(owner, cs[i].id), n);
      } else {
        assert Bears(ApplyAll(s, owner, cs).rows, Key(owner, cs[last].id), n);
      }
    }
  }

  /** So does expiry. */
  lemma {:induction false} ExpirySkipsNoRevision(s: Stamped<History>, owner: Uuid, ids: seq<Uuid>, n: nat)
    requires Distinct(ids) && s.revision < n <= ExpireRows(s, owner, ids).revision
    ensures exists i :: 0 <= i < |ids| && Bears(ExpireRows(s, owner, ids).rows, Key(owner, ids[i]), n)
  {
    if ids != [] {
      var last := |ids| - 1;
      var front := ids[..last];
      var t := ExpireRows(s, owner, front);
      if n <= t.revision {
        ExpirySkipsNoRevision(s, owner, front, n);
        var i :| 0 <= i < |front| && Bears(t.rows, Key(owner, front[i]), n);
        assert ids[i] == front[i] && ids[i] != ids[last];
        assert Bears(ExpireRows(s, owner, ids).rows, Key(owner, ids[i]), n);
      } else {
        assert Bears(ExpireRows(s, owner, ids).rows, Key(owner, ids[last]), n);
      }
    }
  }

  // ---------------------------------------------------------------------------------------------
  // Favourites

  /** The favourites of a valid request, rejected or accepted, against the rows before it. */
  lemma {:induction false} FavouriteUpsertIsStored(st: Store, owner: Uuid, r: SyncRequest, now: Instant, i: nat)
    requires ValidRequest(r, now) && i < |r.favouriteUpserts|
    ensures var u := r.favouriteUpserts[i]; var key := Key(owner, u.id);
            var after := Synchronized(st, owner, r, now).0.favourites;
            && key in after
            && (if key in st.favourites && u.updatedAt <= st.favourites[key].updatedAt then after[key] == st.favourites[key]
                else
                  && after[key].content.stationId == Some(u.stationId) && after[key].content.addedAt == u.addedAt
                  && after[key].updatedAt == u.updatedAt && after[key].deletedAt == None)
  {
    FavouriteRecordsDistinct(r);
    BatchSettles(Stamped(st.favourites, st.revision), owner, FavouriteChanges(r), i);
    var c := FavouriteChanges(r)[i];
    assert c.Upsert? && c.id == r.favouriteUpserts[i].id;
  }

  lemma {:induction false} FavouriteDeleteIsStored(st: Store, owner: Uuid, r: SyncRequest, now: Instant, i: nat)
    requires ValidRequest(r, now) && i < |r.favouriteDeletes|
    ensures var d := r.favouriteDeletes[i]; var key := Key(owner, d.id);
            var after := Synchronized(st, owner, r, now).0.favourites;
            && key in after
            && (if key !in st.favourites then
                  && after[key].content.stationId == None && after[key].content.addedAt == d.updatedAt
                  && after[key].updatedAt == d.updatedAt && after[key].deletedAt == Some(d.updatedAt)
                else if st.favourites[key].deletedAt.Some? || d.updatedAt <= st.favourites[key].updatedAt
                then after[key] == st.favourites[key]
                else
                  && after[key].content.stationId == st.favourites[key].content.stationId
                  && after[key].content.addedAt == st.favourites[key].content.addedAt
                  && after[key].updatedAt == d.updatedAt && after[key].deletedAt == Some(d.updatedAt))
  {
    FavouriteRecordsDistinct(r);
    BatchSettles(Stamped(st.favourites, st.revision), owner, FavouriteChanges(r), |r.favouriteUpserts| + i);
    var c := FavouriteChanges(r)[|r.favouriteUpserts| + i];
    assert c.Delete? && c.id == r.favouriteDeletes[i].id;
  }

  /** A favourite that a request does not name stays as it is. */
  lemma {:induction false} OtherFavouritesStay(st: Store, owner: Uuid, r: SyncRequest, now: Instant, key: Key)
    requires ValidRequest(r, now)
    requires forall i :: 0 <= i < |r.favouriteUpserts| ==> Key(owner, r.favouriteUpserts[i].id) != key
    requires forall i :: 0 <= i < |r.favouriteDeletes| ==> Key(owner, r.favouriteDeletes[i].id) != key
    ensures var after := Synchronized(st, owner, r, now).0.favourites;
            (key in after <==> key in st.favourites) && (key in st.favourites ==> after[key] == st.favourites[key])
  {
    var cs := FavouriteChanges(r);
    forall i | 0 <= i < |cs| ensures Key(owner, cs[i].id) != key {
      assert cs[i].id == if i < |r.favouriteUpserts| then r.favouriteUpserts[i].id else r.favouriteDeletes[i - |r.favouriteUpserts|].id;
    }
    BatchLeaves(Stamped(st.favourites, st.revision), owner, cs, key);
  }

  // ---------------------------------------------------------------------------------------------
  // History

  /** The row once the section has also expired it: a live play that started over 90 days ago becomes a tombstone in place. */
  ghost predicate AfterExpiry(row: Row<History>, after: Row<History>, now: Instant) {
    if row.deletedAt.None? && row.content.startedAt < now - 7_776_000_000_000_000
    then after == Row(row.content, row.updatedAt, Some(row.updatedAt), after.revision)
    else after == row
  }

  /** The history collection as the section finds it. */
  function HistoryBefore(st: Store, owner: Uuid, r: SyncRequest): Stamped<History> {
    Stamped(st.history, PushFavourites(st, owner, FavouriteChanges(r)).revision)
  }

  lemma HistoryIsFinal(st: Store, owner: Uuid, r: SyncRequest, now: Instant, key: Key)
    requires Synchronized(st, owner, r, now).1.Ok? && key.owner == owner
    ensures var merged := ApplyAll(HistoryBefore(st, owner, r), owner, HistoryChanges(r)).rows;
            var after := Synchronized(st, owner, r, now).0.history;
            (key in after <==> key in merged) && (key in merged ==> AfterExpiry(merged[key], after[key], now))
  {
    var st1 := PushFavourites(st, owner, FavouriteChanges(r));
    ExpireOwnerExact(ApplyAll(Stamped(st1.history, st1.revision), owner, HistoryChanges(r)), owner, now);
  }

  /** A pushed play holds what was pushed, and is live unless it started over 90 days ago. */
  lemma {:induction false} PlayIsStored(st: Store, owner: Uuid, r: SyncRequest, now: Instant, i: nat)
    requires Synchronized(st, owner, r, now).1.Ok? && i < |r.historyUpserts|
    ensures var u := r.historyUpserts[i]; var key := Key(owner, u.id);
            var after := Synchronized(st, owner, r, now).0.history;
            && key in after
            && (if key in st.history && u.updatedAt <= st.history[key].updatedAt then AfterExpiry(st.history[key], after[key], now)
                else
                  && after[key].content.stationId == Some(u.stationId) && after[key].content.startedAt == u.startedAt
                  && after[key].content.lastPlayedAt == u.lastPlayedAt && after[key].content.endedAt == u.endedAt
                  && after[key].content.playDurationMs == u.playDurationMs && after[key].content.metadata == u.metadata
                  && after[key].updatedAt == u.updatedAt
                  && after[key].deletedAt == if u.startedAt < now - 7_776_000_000_000_000 then Some(u.updatedAt) else None)
  {
    var c := HistoryChanges(r)[i];
    var u := r.historyUpserts[i];
    HistoryRecordsDistinct(r);
    BatchSettles(HistoryBefore(st, owner, r), owner, HistoryChanges(r), i);
    assert c.Upsert? && c.id == u.id;
    HistoryIsFinal(st, owner, r, now, Key(owner, u.id));
  }

  lemma {:induction false} PlayDeleteIsStored(st: Store, owner: Uuid, r: SyncRequest, now: Instant, i: nat)
    requires Synchronized(st, owner, r, now).1.Ok? && i < |r.historyDeletes|
    ensures var d := r.historyDeletes[i]; var key := Key(owner, d.id);
            var after := Synchronized(st, owner, r, now).0.history;
            && key in after
            && (if key !in st.history then
                  && after[key].content == History(None, d.updatedAt, d.updatedAt, None, None, None)
                  && after[key].updatedAt == d.updatedAt && after[key].deletedAt == Some(d.updatedAt)
                else if st.history[key].deletedAt.Some? || d.updatedAt <= st.history[key].updatedAt
                then AfterExpiry(st.history[key], after[key], now)
                else
                  && after[key].content == st.history[key].content
                  && after[key].updatedAt == d.updatedAt && after[key].deletedAt == Some(d.updatedAt))
  {
    var c := HistoryChanges(r)[|r.historyUpserts| + i];
    HistoryRecordsDistinct(r);
    BatchSettles(HistoryBefore(st, owner, r), owner, HistoryChanges(r), |r.historyUpserts| + i);
    assert c.Delete? && c.id == r.historyDeletes[i].id;
    HistoryIsFinal(st, owner, r, now, Key(owner, c.id));
  }

  lemma UnnamedPlay(owner: Uuid, r: SyncRequest, key: Key)
    requires forall i :: 0 <= i < |r.historyUpserts| ==> Key(owner, r.historyUpserts[i].id) != key
    requires forall i :: 0 <= i < |r.historyDeletes| ==> Key(owner, r.historyDeletes[i].id) != key
    ensures NamesNot(HistoryChanges(r), owner, key)
  {
    var cs := HistoryChanges(r);
    forall i | 0 <= i < |cs| ensures Key(owner, cs[i].id) != key {
      assert cs[i].id == if i < |r.historyUpserts| then r.historyUpserts[i].id else r.historyDeletes[i - |r.historyUpserts|].id;
    }
  }

  /** A play that a request does not name is only ever expired. */
  lemma {:induction false} OtherPlaysStay(st: Store, owner: Uuid, r: SyncRequest, now: Instant, key: Key)
    requires Synchronized(st, owner, r, now).1.Ok? && key.owner == owner
    requires forall i :: 0 <= i < |r.historyUpserts| ==> Key(owner, r.historyUpserts[i].id) != key
    requires forall i :: 0 <= i < |r.historyDeletes| ==> Key(owner, r.historyDeletes[i].id) != key
    ensures var after := Synchronized(st, owner, r, now).0.history;
            (key in after <==> key in st.history) && (key in st.history ==> AfterExpiry(st.history[key], after[key], now))
  {
    UnnamedPlay(owner, r, key);
    BatchLeaves(HistoryBefore(st, owner, r), owner, HistoryChanges(r), key);
    HistoryIsFinal(st, owner, r, now, key);
  }

  // ---------------------------------------------------------------------------------------------
  // Answers

  predicate PlainStation(station: string) {
    1 <= |station| <= 256 && forall i :: 0 <= i < |station| ==> station[i] >= ' ' && !('\U{7f}' <= station[i] <= '\U{9f}')
  }

  const SECOND: int := 1_000_000_000

  /** At most five minutes ahead of the server. */
  predicate NotAhead(at: Instant, now: Instant) {
    at <= now + 300 * SECOND
  }

  predicate PlainPlay(u: HistoryUpsert, now: Instant) {
    && PlainStation(u.stationId)
    && NotAhead(u.startedAt, now) && NotAhead(u.lastPlayedAt, now) && NotAhead(u.updatedAt, now)
    && u.startedAt <= u.lastPlayedAt
    && (u.endedAt == None || (NotAhead(u.endedAt.value, now) && u.startedAt <= u.endedAt.value))
    && (u.playDurationMs == None || u.playDurationMs.value <= 2_592_000_000)
    && (u.metadata == None || (u.metadataIsObject && |u.metadata.value| <= 4096))
  }

  /** No record is named twice among the upserts and deletes of one collection. */
  ghost predicate NamedOnce(upserts: seq<Uuid>, deletes: seq<Uuid>) {
    && (forall i, j :: 0 <= i < j < |upserts| ==> upserts[i] != upserts[j])
    && (forall i, j :: 0 <= i < j < |deletes| ==> deletes[i] != deletes[j])
    && (forall i, j :: 0 <= i < |upserts| && 0 <= j < |deletes| ==> upserts[i] != deletes[j])
  }

  ghost function UpsertedFavourites(r: SyncRequest): seq<Uuid> {
    seq(|r.favouriteUpserts|, i requires 0 <= i < |r.favouriteUpserts| => r.favouriteUpserts[i].id)
  }

  ghost function DeletedFavourites(r: SyncRequest): seq<Uuid> {
    seq(|r.favouriteDeletes|, i requires 0 <= i < |r.favouriteDeletes| => r.favouriteDeletes[i].id)
  }

  ghost function UpsertedPlays(r: SyncRequest): seq<Uuid> {
    seq(|r.historyUpserts|, i requires 0 <= i < |r.historyUpserts| => r.historyUpserts[i].id)
  }

  ghost function DeletedPlays(r: SyncRequest): seq<Uuid> {
    seq(|r.historyDeletes|, i requires 0 <= i < |r.historyDeletes| => r.historyDeletes[i].id)
  }

  ghost predicate PlainRequest(r: SyncRequest, now: Instant) {
    && |r.favouriteUpserts| <= 300 && |r.favouriteDeletes| <= 300 && |r.historyUpserts| <= 300 && |r.historyDeletes| <= 300
    && NamedOnce(UpsertedFavourites(r), DeletedFavourites(r)) && NamedOnce(UpsertedPlays(r), DeletedPlays(r))
    && (forall i :: 0 <= i < |r.favouriteUpserts| ==>
          var u := r.favouriteUpserts[i];
          PlainStation(u.stationId) && NotAhead(u.addedAt, now) && NotAhead(u.updatedAt, now))
    && (forall i :: 0 <= i < |r.historyUpserts| ==> PlainPlay(r.historyUpserts[i], now))
  }

  lemma DistinctIsNamedOnce(upserts: seq<Uuid>, deletes: seq<Uuid>)
    ensures Distinct(upserts + deletes) <==> NamedOnce(upserts, deletes)
  {
    var all := upserts + deletes;
    assert forall i :: 0 <= i < |upserts| ==> all[i] == upserts[i];
    assert forall j :: 0 <= j < |deletes| ==> all[|upserts| + j] == deletes[j];
    if NamedOnce(upserts, deletes) {
      forall i, j | 0 <= i < j < |all| ensures all[i] != all[j] {
      }
    }
  }

  lemma {:induction false} ValidationIsExact(r: SyncRequest, now: Instant)
    ensures ValidRequest(r, now) <==> PlainRequest(r, now)
  {
    DistinctIsNamedOnce(UpsertedFavourites(r), DeletedFavourites(r));
    DistinctIsNamedOnce(UpsertedPlays(r), DeletedPlays(r));
    assert FavouriteIds(r) == UpsertedFavourites(r) + DeletedFavourites(r);
    assert HistoryIds(r) == UpsertedPlays(r) + DeletedPlays(r);
  }

  /** The live records of an account. */
  ghost function LiveOf<C>(rows: Rows<C>, owner: Uuid): set<Key> {
    set key | key in rows && key.owner == owner && rows[key].deletedAt == None
  }

  /** Which of the four answers a call gets, by the request, the limit of 500 and the rows it leaves. */
  lemma {:induction false} AnswerIsExact(st: Store, owner: Uuid, r: SyncRequest, now: Instant)
    ensures var (after, reply) := Synchronized(st, owner, r, now);
            && (reply == Err(Validation) <==> !PlainRequest(r, now))
            && (reply == Err(Validation) ==> after == st)
            && (reply == Err(FavouriteLimitExceeded) <==> PlainRequest(r, now) && |LiveOf(after.favourites, owner)| > 500)
            && (reply == Err(FavouriteLimitExceeded) ==> after.history == st.history)
            && (reply == Err(HistoryLimitExceeded) <==>
                  PlainRequest(r, now) && |LiveOf(after.favourites, owner)| <= 500 && |LiveOf(after.history, owner)| > 500)
  {
    ValidationIsExact(r, now);
    var after := Synchronized(st, owner, r, now).0;
    assert LiveOf(after.favourites, owner) == LiveKeys(after.favourites, owner);
    assert LiveOf(after.history, owner) == LiveKeys(after.history, owner);
  }

  /** The ids a request pushes, to be echoed whatever became of them. */
  ghost predicate PushedFavourite(r: SyncRequest, id: Uuid) {
    (exists i :: 0 <= i < |r.favouriteUpserts| && r.favouriteUpserts[i].id == id)
    || (exists i :: 0 <= i < |r.favouriteDeletes| && r.favouriteDeletes[i].id == id)
  }

  ghost predicate PushedPlay(r: SyncRequest, id: Uuid) {
    (exists i :: 0 <= i < |r.historyUpserts| && r.historyUpserts[i].id == id)
    || (exists i :: 0 <= i < |r.historyDeletes| && r.historyDeletes[i].id == id)
  }

  lemma PushedAreElements(r: SyncRequest, id: Uuid)
    ensures id in Elements(FavouriteIds(r)) <==> PushedFavourite(r, id)
    ensures id in Elements(HistoryIds(r)) <==> PushedPlay(r, id)
  {
    var f, h := FavouriteIds(r), HistoryIds(r);
    assert forall i :: 0 <= i < |r.favouriteUpserts| ==> f[i] == r.favouriteUpserts[i].id;
    assert forall i :: 0 <= i < |r.favouriteDeletes| ==> f[|r.favouriteUpserts| + i] == r.favouriteDeletes[i].id;
    assert forall i :: 0 <= i < |r.historyUpserts| ==> h[i] == r.historyUpserts[i].id;
    assert forall i :: 0 <= i < |r.historyDeletes| ==> h[|r.historyUpserts| + i] == r.historyDeletes[i].id;
  }

  /** The reply lists exactly the account's rows past the cursor or pushed, as the call leaves them. */
  lemma {:induction false} ReplyIsExact(st: Store, owner: Uuid, r: SyncRequest, now: Instant, id: Uuid)
    requires Synchronized(st, owner, r, now).1.Ok?
    ensures var (after, reply) := Synchronized(st, owner, r, now);
            && (forall row :: Entry(id, row) in reply.value.favourites <==>
                  Key(owner, id) in after.favourites && row == after.favourites[Key(owner, id)]
                  && (row.revision > r.since || PushedFavourite(r, id)))
            && (forall row :: Entry(id, row) in reply.value.history <==>
                  Key(owner, id) in after.history && row == after.history[Key(owner, id)]
                  && (row.revision > r.since || PushedPlay(r, id)))
  {
    var after := Synchronized(st, owner, r, now).0;
    var f, h := Elements(FavouriteIds(r)), Elements(HistoryIds(r));
    assert Synchronized(st, owner, r, now).1.value == Respond(after, owner, r.since, f, h);
    PushedAreElements(r, id);
    PageEntries(after.favourites, owner, r.since, f, id);
    PageEntries(after.history, owner, r.since, h, id);
  }

  lemma PageEntries<C(!new)>(rows: Rows<C>, owner: Uuid, since: nat, pushed: set<Uuid>, id: Uuid)
    ensures forall row :: Entry(id, row) in DeltaAndEcho(rows, owner, since, pushed).entries <==>
              Key(owner, id) in rows && row == rows[Key(owner, id)] && (row.revision > since || id in pushed)
  {
    DeltaAndEchoIsExact(rows, owner, since, pushed);
  }

  /** No row of the account exceeds the cursor. */
  ghost predicate Bounds<C>(rows: Rows<C>, owner: Uuid, cursor: nat) {
    forall id :: Key(owner, id) in rows ==> rows[Key(owner, id)].revision <= cursor
  }

  ghost predicate Reaches<C>(rows: Rows<C>, owner: Uuid, cursor: nat) {
    exists id :: Key(owner, id) in rows && rows[Key(owner, id)].revision == cursor
  }

  lemma PageCursor<C>(rows: Rows<C>, owner: Uuid, since: nat, pushed: set<Uuid>)
    ensures var cursor := DeltaAndEcho(rows, owner, since, pushed).cursor;
            since <= cursor && Bounds(rows, owner, cursor) && (cursor == since || Reaches(rows, owner, cursor))
  {
    DeltaAndEchoIsExact(rows, owner, since, pushed);
  }

  /** The new cursor is the least that neither the old one nor any row of the account exceeds. */
  lemma {:induction false} CursorIsExact(st: Store, owner: Uuid, r: SyncRequest, now: Instant)
    requires Synchronized(st, owner, r, now).1.Ok?
    ensures var (after, reply) := Synchronized(st, owner, r, now); var cursor := reply.value.serverRevision;
            && r.since <= cursor && Bounds(after.favourites, owner, cursor) && Bounds(after.history, owner, cursor)
            && (cursor == r.since || Reaches(after.favourites, owner, cursor) || Reaches(after.history, owner, cursor))
  {
    var after := Synchronized(st, owner, r, now).0;
    var f, h := Elements(FavouriteIds(r)), Elements(HistoryIds(r));
    assert Synchronized(st, owner, r, now).1.value == Respond(after, owner, r.since, f, h);
    PageCursor(after.favourites, owner, r.since, f);
    PageCursor(after.history, owner, r.since, h);
  }
}
