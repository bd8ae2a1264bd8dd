/**
  A call that exceeds a limit is rejected but not rolled back: when exactly it leaves the store alone, a run in
  which it does not, and how long the account then stays over its limit.
 */
module PersonalRollback {
  import opened Common
  import opened PersonalSync
  import opened PersonalStore
  import opened PersonalMerge
  import opened PersonalGuarantees

  // ---------------------------------------------------------------------------------------------
  // When a rejected call changes nothing

  ghost predicate AllAbsorbed<C>(rows: Rows<C>, owner: Uuid, cs: seq<Change<C>>) {
    forall i :: 0 <= i < |cs| ==> Absorbed(rows, owner, cs[i])
  }

  /** No live play of the account started before retention. */
  ghost predicate NonePastRetention(rows: Rows<History>, owner: Uuid, now: Instant) {
    forall key :: key in rows && key.owner == owner ==> !IsExpired(rows[key], now - HISTORY_RETENTION)
  }

  lemma FavouriteSectionIsNoOp(st: Store, owner: Uuid, cs: seq<Change<Favourite>>)
    requires UpsertsBeforeDeletes(cs)
    ensures PushFavourites(st, owner, cs).favourites == st.favourites <==> AllAbsorbed(st.favourites, owner, cs)
    ensures AllAbsorbed(st.favourites, owner, cs) ==> PushFavourites(st, owner, cs) == st
  {
    var s := Stamped(st.favourites, st.revision);
    if AllAbsorbed(st.favourites, owner, cs) {
      AbsorbedBatchIsNoOp(s, owner, cs);
    }
    if ApplyAll(s, owner, cs).rows == st.favourites {
      BatchIsAbsorbed(s, owner, cs);
    }
  }

  lemma HistorySectionIsNoOp(st: Store, owner: Uuid, cs: seq<Change<History>>, now: Instant)
    requires UpsertsBeforeDeletes(cs)
    ensures PushHistory(st, owner, cs, now).history == st.history <==>
              AllAbsorbed(st.history, owner, cs) && NonePastRetention(st.history, owner, now)
    ensures PushHistory(st, owner, cs, now).history == st.history ==> PushHistory(st, owner, cs, now) == st
  {
    var s := Stamped(st.history, st.revision);
    var t := ApplyAll(s, owner, cs);
    var u := ExpireOwner(t, owner, now);
    if u.rows == st.history {
      BatchIsAbsorbed(s, owner, cs);
      forall i | 0 <= i < |cs| ensures Absorbed(st.history, owner, cs[i]) {
        ExpiryKeepsAbsorption(t, owner, now, cs[i]);
      }
    }
    if AllAbsorbed(st.history, owner, cs) {
      AbsorbedBatchIsNoOp(s, owner, cs);
      ExpireOwnerExact(s, owner, now);
    }
  }

  /**
    For every call, accepted or not, by what a caller can compare beforehand: the store is unchanged if and only if the
    request is invalid, or its favourite changes are already absorbed and either the account is over its favourites limit
    or its plays are absorbed too and none is past retention.
   */
  lemma {:induction false} CallChangesNothingIff(st: Store, owner: Uuid, r: SyncRequest, now: Instant)
    ensures Synchronized(st, owner, r, now).0 == st <==>
              || !ValidRequest(r, now)
              || (AllAbsorbed(st.favourites, owner, FavouriteChanges(r))
                  && (|LiveKeys(st.favourites, owner)| > MAX_FAVOURITE_RECORDS
                      || (AllAbsorbed(st.history, owner, HistoryChanges(r)) && NonePastRetention(st.history, owner, now))))
  {
    var st1 := PushFavourites(st, owner, FavouriteChanges(r));
    FavouriteSectionIsNoOp(st, owner, FavouriteChanges(r));
    HistorySectionIsNoOp(st1, owner, HistoryChanges(r), now);
  }

  /** What was left to do before each error. */
  ghost predicate NothingToDo(st: Store, owner: Uuid, r: SyncRequest, now: Instant, error: SyncError) {
    match error
    case Validation => true
    case FavouriteLimitExceeded => AllAbsorbed(st.favourites, owner, FavouriteChanges(r))
    case HistoryLimitExceeded =>
      && AllAbsorbed(st.favourites, owner, FavouriteChanges(r))
      && AllAbsorbed(st.history, owner, HistoryChanges(r))
      && NonePastRetention(st.history, owner, now)
  }

  /** The documented transaction holds of a rejected call exactly when the call had nothing to do before its error. */
  lemma {:induction false} RejectionIsAtomicIff(st: Store, owner: Uuid, r: SyncRequest, now: Instant)
    requires Synchronized(st, owner, r, now).1.Err?
    ensures Synchronized(st, owner, r, now).0 == st <==>
              NothingToDo(st, owner, r, now, Synchronized(st, owner, r, now).1.error)
  {
    CallChangesNothingIff(st, owner, r, now);
    FavouriteSectionIsNoOp(st, owner, FavouriteChanges(r));
  }

  // ---------------------------------------------------------------------------------------------
  // A rejected call that changes the store

  /** Requests that add `n` favourites, or `n` plays, with identifiers from `from` on. */
  function Additions(from: nat, n: nat): SyncRequest {
    SyncRequest(0, seq(n, i requires 0 <= i < n => FavouriteUpsert(from + i, "station", 0, 0)), [], [], [])
  }

  function Plays(from: nat, n: nat): SyncRequest {
    SyncRequest(0, [], [], seq(n, i requires 0 <= i < n => HistoryUpsert(from + i, "station", 0, 0, None, None, None, false, 0)), [])
  }

  lemma AdditionsAreValid(from: nat, n: nat)
    requires n <= MAX_SYNC_BATCH_ITEMS
    ensures ValidRequest(Additions(from, n), 0) && ValidRequest(Plays(from, n), 0)
  {
    assert ValidStationId("station");
    assert |FavouriteIds(Additions(from, n))| == n && |HistoryIds(Plays(from, n))| == n;
    assert FavouriteIds(Plays(from, n)) == [] && HistoryIds(Additions(from, n)) == [];
  }

  /** The account holds exactly the first `m` records, all live. */
  ghost predicate HoldsFirst<C>(rows: Rows<C>, owner: Uuid, m: nat) {
    && (forall id :: 0 <= id < m ==> Key(owner, id) in rows && Live(rows[Key(owner, id)]))
    && (forall key :: key in rows && key.owner == owner ==> key.id < m)
  }

  lemma {:induction false} AdditionsAreHeld<C>(s: Stamped<C>, owner: Uuid, m: nat, cs: seq<Change<C>>)
    requires HoldsFirst(s.rows, owner, m)
    requires forall i :: 0 <= i < |cs| ==> cs[i].Upsert? && cs[i].id == m + i
    ensures HoldsFirst(ApplyAll(s, owner, cs).rows, owner, m + |cs|)
  {
    if cs != [] {
      AdditionsAreHeld(s, owner, m, cs[..|cs| - 1]);
    }
  }

  lemma {:induction false} FirstAreCounted(owner: Uuid, m: nat, keys: set<Key>)
    requires forall key :: key in keys <==> key.owner == owner && key.id < m
    ensures |keys| == m
  {
    if m == 0 {
      assert keys == {};
    } else {
      FirstAreCounted(owner, m - 1, keys - {Key(owner, m - 1)});
    }
  }

  lemma HeldAreLive<C>(rows: Rows<C>, owner: Uuid, m: nat)
    requires HoldsFirst(rows, owner, m)
    ensures |LiveKeys(rows, owner)| == m
  {
    FirstAreCounted(owner, m, LiveKeys(rows, owner));
  }

  /** Plays that all started at 0, so that none is past retention at 0. */
  ghost predicate StartedAtZero(rows: Rows<History>) {
    forall key :: key in rows ==> rows[key].content.startedAt == 0
  }

  lemma {:induction false} PlaysStartAtZero(s: Stamped<History>, owner: Uuid, cs: seq<Change<History>>)
    requires StartedAtZero(s.rows) && forall i :: 0 <= i < |cs| ==> cs[i].Upsert? && cs[i].content.startedAt == 0
    ensures StartedAtZero(ApplyAll(s, owner, cs).rows)
  {
    if cs != [] {
      PlaysStartAtZero(s, owner, cs[..|cs| - 1]);
    }
  }

  ghost predicate Filled(st: Store, owner: Uuid, favourites: nat, plays: nat) {
    HoldsFirst(st.favourites, owner, favourites) && HoldsFirst(st.history, owner, plays) && StartedAtZero(st.history)
  }

  lemma HistoryFills(st: Store, owner: Uuid, m: nat, cs: seq<Change<History>>)
    requires HoldsFirst(st.history, owner, m) && StartedAtZero(st.history)
    requires forall i :: 0 <= i < |cs| ==> cs[i].Upsert? && cs[i].id == m + i && cs[i].content.startedAt == 0
    ensures var after := PushHistory(st, owner, cs, 0);
            && HoldsFirst(after.history, owner, m + |cs|) && StartedAtZero(after.history)
            && |LiveKeys(after.history, owner)| == m + |cs| && after.favourites == st.favourites
  {
    var s := Stamped(st.history, st.revision);
    var t := ApplyAll(s, owner, cs);
    AdditionsAreHeld(s, owner, m, cs);
    PlaysStartAtZero(s, owner, cs);
    HeldAreLive(t.rows, owner, m + |cs|);
  }

  /** One request of additions: accepted up to the limit, rejected past it, merged in either case. */
  lemma AdditionStep(st: Store, owner: Uuid, m: nat, n: nat)
    requires Filled(st, owner, m, 0) && n <= MAX_SYNC_BATCH_ITEMS
    ensures var (after, reply) := Synchronized(st, owner, Additions(m, n), 0);
            && Filled(after, owner, m + n, 0)
            && (if m + n <= MAX_FAVOURITE_RECORDS then reply.Ok? else reply == Err(FavouriteLimitExceeded))
  {
    var r := Additions(m, n);
    AdditionsAreValid(m, n);
    var cs := FavouriteChanges(r);
    assert |cs| == n && forall i :: 0 <= i < n ==> cs[i] == FavouriteUpsertChange(r.favouriteUpserts[i]);
    AdditionsAreHeld(Stamped(st.favourites, st.revision), owner, m, cs);
    var st1 := PushFavourites(st, owner, cs);
    HeldAreLive(st1.favourites, owner, m + n);
    assert HistoryChanges(r) == [];
    HistoryFills(st1, owner, 0, []);
  }

  lemma PlayStep(st: Store, owner: Uuid, m: nat, n: nat)
    requires Filled(st, owner, 0, m) && n <= MAX_SYNC_BATCH_ITEMS
    ensures var (after, reply) := Synchronized(st, owner, Plays(m, n), 0);
            && Filled(after, owner, 0, m + n)
            && (if m + n <= MAX_HISTORY_RECORDS then reply.Ok? else reply == Err(HistoryLimitExceeded))
  {
    var r := Plays(m, n);
    AdditionsAreValid(m, n);
    assert FavouriteChanges(r) == [];
    HeldAreLive(st.favourites, owner, 0);
    var cs := HistoryChanges(r);
    assert |cs| == n && forall i :: 0 <= i < n ==> cs[i] == HistoryUpsertChange(r.historyUpserts[i]);
    var st1 := PushFavourites(st, owner, FavouriteChanges(r));
    assert st1 == st;
    HistoryFills(st, owner, m, cs);
  }

  const Empty: Store := Store(map[], map[], 0)

  /** From the empty store: 300 favourites, 200 more, and one too many. The last call fails and is merged all the same. */
  lemma {:induction false} FavouriteLimitErrorIsReached(owner: Uuid)
    ensures var st := Synchronized(Synchronized(Empty, owner, Additions(0, 300), 0).0, owner, Additions(300, 200), 0).0;
            var (after, reply) := Synchronized(st, owner, Additions(500, 1), 0);
            reply == Err(FavouriteLimitExceeded) && after != st
  {
    AdditionStep(Empty, owner, 0, 300);
    var st1 := Synchronized(Empty, owner, Additions(0, 300), 0).0;
    AdditionStep(st1, owner, 300, 200);
    var st2 := Synchronized(st1, owner, Additions(300, 200), 0).0;
    AdditionStep(st2, owner, 500, 1);
    var after := Synchronized(st2, owner, Additions(500, 1), 0).0;
    assert Key(owner, 500) in after.favourites && Key(owner, 500) !in st2.favourites;
  }

  /** The same with plays. */
  lemma {:induction false} HistoryLimitErrorIsReached(owner: Uuid)
    ensures var st := Synchronized(Synchronized(Empty, owner, Plays(0, 300), 0).0, owner, Plays(300, 200), 0).0;
            var (after, reply) := Synchronized(st, owner, Plays(500, 1), 0);
            reply == Err(HistoryLimitExceeded) && after != st
  {
    PlayStep(Empty, owner, 0, 300);
    var st1 := Synchronized(Empty, owner, Plays(0, 300), 0).0;
    PlayStep(st1, owner, 300, 200);
    var st2 := Synchronized(st1, owner, Plays(300, 200), 0).0;
    PlayStep(st2, owner, 500, 1);
    var after := Synchronized(st2, owner, Plays(500, 1), 0).0;
    assert Key(owner, 500) in after.history && Key(owner, 500) !in st2.history;
  }

  // ---------------------------------------------------------------------------------------------
  // How long the account stays over its limit

  datatype Call = Push(caller: Uuid, request: SyncRequest, at: Instant) | Sweep(at: Instant)

  function AfterCall(st: Store, c: Call): Store {
    match c
    case Push(caller, r, at) => Synchronized(st, caller, r, at).0
    case Sweep(at) => SweepFavourites(SweepHistory(st, at), at)
  }

  function AfterCalls(st: Store, calls: seq<Call>): Store {
    if calls == [] then st else AfterCall(AfterCalls(st, calls[..|calls| - 1]), calls[|calls| - 1])
  }

  /** The account itself deletes no favourite. */
  predicate DeletesNoFavourite(c: Call, owner: Uuid) {
    c.Push? && c.caller == owner ==> c.request.favouriteDeletes == []
  }

  lemma {:induction false} UpsertsKeepLive<C>(s: Stamped<C>, owner: Uuid, cs: seq<Change<C>>)
    requires forall i :: 0 <= i < |cs| ==> cs[i].Upsert?
    ensures LiveKeys(s.rows, owner) <= LiveKeys(ApplyAll(s, owner, cs).rows, owner)
  {
    if cs != [] {
      UpsertsKeepLive(s, owner, cs[..|cs| - 1]);
    }
  }

  lemma CallKeepsLive(st: Store, owner: Uuid, c: Call)
    requires DeletesNoFavourite(c, owner)
    ensures LiveKeys(st.favourites, owner) <= LiveKeys(AfterCall(st, c).favourites, owner)
  {
    if c.Push? && c.caller == owner {
      UpsertsKeepLive(Stamped(st.favourites, st.revision), owner, FavouriteChanges(c.request));
    } else if c.Push? {
      forall key | key in LiveKeys(st.favourites, owner) ensures key in LiveKeys(AfterCall(st, c).favourites, owner) {
        OtherAccountsAreUntouched(st, c.caller, c.request, c.at, key);
      }
    }
  }

  lemma {:induction false} CallsKeepLive(st: Store, owner: Uuid, calls: seq<Call>)
    requires forall i :: 0 <= i < |calls| ==> DeletesNoFavourite(calls[i], owner)
    ensures LiveKeys(st.favourites, owner) <= LiveKeys(AfterCalls(st, calls).favourites, owner)
  {
    if calls != [] {
      CallsKeepLive(st, owner, calls[..|calls| - 1]);
      CallKeepsLive(AfterCalls(st, calls[..|calls| - 1]), owner, calls[|calls| - 1]);
    }
  }

  lemma OverLimitIsRejected(st: Store, owner: Uuid, r: SyncRequest, now: Instant)
    requires |LiveKeys(st.favourites, owner)| > MAX_FAVOURITE_RECORDS && ValidRequest(r, now) && r.favouriteDeletes == []
    ensures Synchronized(st, owner, r, now).1 == Err(FavouriteLimitExceeded)
  {
    var after := PushFavourites(st, owner, FavouriteChanges(r));
    UpsertsKeepLive(Stamped(st.favourites, st.revision), owner, FavouriteChanges(r));
    SubsetIsNoLarger(LiveKeys(st.favourites, owner), LiveKeys(after.favourites, owner));
  }

  /**
    After a favourites limit error, whatever requests of any account and whatever sweeps follow, every valid request of
    the account is rejected for as long as it has sent no favourite delete.
   */
  lemma {:induction false} OverLimitPushSticks(st: Store, owner: Uuid, r: SyncRequest, now: Instant, calls: seq<Call>, r2: SyncRequest, now2: Instant)
    requires Synchronized(st, owner, r, now).1 == Err(FavouriteLimitExceeded)
    requires forall i :: 0 <= i < |calls| ==> DeletesNoFavourite(calls[i], owner)
    requires ValidRequest(r2, now2) && r2.favouriteDeletes == []
    ensures Synchronized(AfterCalls(Synchronized(st, owner, r, now).0, calls), owner, r2, now2).1 == Err(FavouriteLimitExceeded)
  {
    var st1 := Synchronized(st, owner, r, now).0;
    var st2 := AfterCalls(st1, calls);
    CallsKeepLive(st1, owner, calls);
    SubsetIsNoLarger(LiveKeys(st1.favourites, owner), LiveKeys(st2.favourites, owner));
    OverLimitIsRejected(st2, owner, r2, now2);
  }
}
