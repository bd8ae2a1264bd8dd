/**
  A client that folds every reply into its own copy and passes the returned cursor back, followed over
  every run of the store. The lock sections of all accounts' synchronizations and of the sweeps
  interleave freely; only the client's own reads are distinguished. The two collections have separate locks
  and share one counter, so a section may also run in pieces: any part of a batch, one expired row, one purge.
 */
module PersonalReplica {
  import opened Common
  import opened PersonalSync
  import opened PersonalStore

  /** The client's copy of one collection; `lost` (bookkeeping only) names live copies whose row was purged unseen. */
  datatype Mirror<C> = Mirror(held: map<Uuid, Row<C>>, lost: set<Uuid>)

  datatype World = World(store: Store, cursor: nat, favourites: Mirror<Favourite>, history: Mirror<History>)

  datatype Step =
    | FavouriteSection(owner: Uuid, favouriteChanges: seq<Change<Favourite>>)
    | HistorySection(owner: Uuid, historyChanges: seq<Change<History>>, now: Instant)
    | ClientReads(favouriteIds: set<Uuid>, historyIds: set<Uuid>)
    | HistorySweep(now: Instant)
    | FavouriteSweep(now: Instant)
    | HistoryMerge(owner: Uuid, historyChanges: seq<Change<History>>)
    | HistoryExpiry(owner: Uuid, id: Uuid)
    | HistoryPurge(now: Instant)

  const Start: World := World(Store(map[], map[], 0), 0, Mirror(map[], {}), Mirror(map[], {}))

  function Fold<C>(held: map<Uuid, Row<C>>, entries: seq<Entry<C>>): map<Uuid, Row<C>> {
    if entries == [] then held
    else Fold(held, entries[..|entries| - 1])[entries[|entries| - 1].id := entries[|entries| - 1].row]
  }

  function EntryIds<C>(entries: seq<Entry<C>>): set<Uuid> {
    set i | 0 <= i < |entries| :: entries[i].id
  }

  function Learn<C>(m: Mirror<C>, entries: seq<Entry<C>>): Mirror<C> {
    Mirror(Fold(m.held, entries), m.lost - EntryIds(entries))
  }

  /** Rows purged while the client still held a live copy. */
  function Missed<C>(me: Uuid, m: Mirror<C>, before: Rows<C>, after: Rows<C>): set<Uuid> {
    set id | id in m.held && Live(m.held[id]) && Key(me, id) in before && Key(me, id) !in after
  }

  /** The mirror once the rows `before` have been purged down to `after`. */
  function Bereft<C>(me: Uuid, m: Mirror<C>, before: Rows<C>, after: Rows<C>): Mirror<C> {
    Mirror(m.held, m.lost + Missed(me, m, before, after))
  }

  function WithHistory(w: World, t: Stamped<History>): World {
    w.(store := w.store.(history := t.rows, revision := t.revision))
  }

  function WithPurged(me: Uuid, w: World, st: Store): World {
    World(st, w.cursor, w.favourites, Bereft(me, w.history, w.store.history, st.history))
  }

  function Next(me: Uuid, w: World, step: Step): World {
    match step
    case FavouriteSection(owner, cs) => w.(store := PushFavourites(w.store, owner, cs))
    case HistorySection(owner, cs, now) => w.(store := PushHistory(w.store, owner, cs, now))
    case ClientReads(fs, hs) =>
      var reply := Respond(w.store, me, w.cursor, fs, hs);
      World(w.store, reply.serverRevision, Learn(w.favourites, reply.favourites), Learn(w.history, reply.history))
    case HistorySweep(now) => WithPurged(me, w, SweepHistory(w.store, now))
    case FavouriteSweep(now) =>
      var st := SweepFavourites(w.store, now);
      World(st, w.cursor, Bereft(me, w.favourites, w.store.favourites, st.favourites), w.history)
    case HistoryMerge(owner, cs) => WithHistory(w, ApplyAll(Stamped(w.store.history, w.store.revision), owner, cs))
    case HistoryExpiry(owner, id) =>
      if Key(owner, id) in w.store.history && Live(w.store.history[Key(owner, id)])
      then WithHistory(w, ExpireRow(Stamped(w.store.history, w.store.revision), Key(owner, id))) else w
    case HistoryPurge(now) =>
      WithPurged(me, w, PurgeHistory(w.store, now))
  }

  function RunFrom(me: Uuid, w: World, steps: seq<Step>): World {
    if steps == [] then w else Next(me, RunFrom(me, w, steps[..|steps| - 1]), steps[|steps| - 1])
  }

  function Run(me: Uuid, steps: seq<Step>): World {
    if steps == [] then Start else Next(me, Run(me, steps[..|steps| - 1]), steps[|steps| - 1])
  }

  // ---------------------------------------------------------------------------------------------
  // Invariants

  /** Rows at or below the cursor are held as stored; every live copy is backed by a row or recorded as lost. */
  ghost predicate Tracks<C>(rows: Rows<C>, me: Uuid, m: Mirror<C>, cursor: nat) {
    && (forall id :: Key(me, id) in rows && rows[Key(me, id)].revision <= cursor ==>
          id in m.held && m.held[id] == rows[Key(me, id)])
    && (forall id :: id in m.held && Live(m.held[id]) ==> Key(me, id) in rows || id in m.lost)
    && (forall id :: id in m.lost ==>
          && id in m.held && Live(m.held[id])
          && (Key(me, id) in rows ==> rows[Key(me, id)].revision > cursor))
  }

  /** Both collections share one counter and never share a revision. */
  ghost predicate StoreInvariant(st: Store) {
    && WellStamped(Stamped(st.favourites, st.revision))
    && WellStamped(Stamped(st.history, st.revision))
    && (forall f, h :: f in st.favourites && h in st.history ==> st.favourites[f].revision != st.history[h].revision)
  }

  ghost predicate Invariant(me: Uuid, w: World) {
    && StoreInvariant(w.store)
    && w.cursor <= w.store.revision
    && Tracks(w.store.favourites, me, w.favourites, w.cursor)
    && Tracks(w.store.history, me, w.history, w.cursor)
  }

  /** The copy equals every stored row, and its live records are the stored live ones plus the lost ones. */
  ghost predicate Agrees<C>(rows: Rows<C>, me: Uuid, m: Mirror<C>) {
    && (forall id :: Key(me, id) in rows ==> id in m.held && m.held[id] == rows[Key(me, id)])
    && (forall id :: id in m.held && Live(m.held[id]) <==>
          (Key(me, id) in rows && Live(rows[Key(me, id)])) || id in m.lost)
    && (forall id :: id in m.lost ==> Key(me, id) !in rows)
  }

  ghost predicate SameLiveSet<C>(rows: Rows<C>, me: Uuid, m: Mirror<C>) {
    forall id :: id in m.held && Live(m.held[id]) <==> Key(me, id) in rows && Live(rows[Key(me, id)])
  }

  // ---------------------------------------------------------------------------------------------
  // One step at a time

  lemma TracksThroughChange<C>(s: Stamped<C>, t: Stamped<C>, me: Uuid, m: Mirror<C>, cursor: nat)
    requires Tracks(s.rows, me, m, cursor) && Evolves(s, t) && cursor <= s.revision
    ensures Tracks(t.rows, me, m, cursor)
  {
  }

  lemma TracksThroughPurge<C>(rows: Rows<C>, cutoff: Instant, me: Uuid, m: Mirror<C>, cursor: nat)
    requires Tracks(rows, me, m, cursor)
    ensures Tracks(Retain(rows, cutoff), me, Bereft(me, m, rows, Retain(rows, cutoff)), cursor)
  {
  }

  lemma {:induction false} FoldOverwrites<C>(rows: Rows<C>, me: Uuid, held: map<Uuid, Row<C>>, entries: seq<Entry<C>>)
    requires forall e :: e in entries ==> Key(me, e.id) in rows && e.row == rows[Key(me, e.id)]
    ensures forall id :: id in Fold(held, entries) <==> id in held || id in EntryIds(entries)
    ensures forall id :: id in EntryIds(entries) ==> Key(me, id) in rows && Fold(held, entries)[id] == rows[Key(me, id)]
    ensures forall id :: id in held && id !in EntryIds(entries) ==> Fold(held, entries)[id] == held[id]
  {
    if entries != [] {
      var front := entries[..|entries| - 1];
      var last := entries[|entries| - 1];
      assert forall e :: e in entries <==> e in front || e == last;
      assert EntryIds(entries) == EntryIds(front) + {last.id};
      FoldOverwrites(rows, me, held, front);
      assert last in entries;
    }
  }

  lemma TracksThroughRead<C>(rows: Rows<C>, me: Uuid, m: Mirror<C>, cursor: nat, pushed: set<Uuid>, bound: nat)
    requires Tracks(rows, me, m, cursor)
    requires DeltaAndEcho(rows, me, cursor, pushed).cursor <= bound
    ensures var m' := Learn(m, DeltaAndEcho(rows, me, cursor, pushed).entries);
            Tracks(rows, me, m', bound) && Agrees(rows, me, m')
  {
    var entries := DeltaAndEcho(rows, me, cursor, pushed).entries;
    DeltaAndEchoIsExact(rows, me, cursor, pushed);
    FoldOverwrites(rows, me, m.held, entries);
    var m' := Learn(m, entries);
    forall id | Key(me, id) in rows
      ensures id in m'.held && m'.held[id] == rows[Key(me, id)] && id !in m'.lost
    {
      if rows[Key(me, id)].revision > cursor {
        assert Entry(id, rows[Key(me, id)]) in entries;
      }
    }
  }

  /** Rows of one collection keep their revisions out of the other's when that one changes. */
  lemma SectionsStayDisjoint<C, D>(s: Stamped<C>, t: Stamped<C>, other: Rows<D>)
    requires Evolves(s, t) && WellStamped(Stamped(other, s.revision))
    requires forall f, h :: f in s.rows && h in other ==> s.rows[f].revision != other[h].revision
    ensures WellStamped(Stamped(other, t.revision))
    ensures forall f, h :: f in t.rows && h in other ==> t.rows[f].revision != other[h].revision
  {
  }

  lemma FavouriteSectionKeeps(me: Uuid, w: World, owner: Uuid, cs: seq<Change<Favourite>>)
    requires Invariant(me, w)
    ensures Invariant(me, Next(me, w, FavouriteSection(owner, cs)))
  {
    var s := Stamped(w.store.favourites, w.store.revision);
    var t := ApplyAll(s, owner, cs);
    ApplyAllEvolves(s, owner, cs);
    SectionsStayDisjoint(s, t, w.store.history);
    TracksThroughChange(s, t, me, w.favourites, w.cursor);
  }

  lemma HistoryEvolutionKeeps(me: Uuid, w: World, t: Stamped<History>)
    requires Invariant(me, w)
    requires Evolves(Stamped(w.store.history, w.store.revision), t) && WellStamped(t)
    ensures Invariant(me, WithHistory(w, t))
  {
    var s := Stamped(w.store.history, w.store.revision);
    SectionsStayDisjoint(s, t, w.store.favourites);
    TracksThroughChange(s, t, me, w.history, w.cursor);
  }

  lemma HistorySectionKeeps(me: Uuid, w: World, owner: Uuid, cs: seq<Change<History>>, now: Instant)
    requires Invariant(me, w)
    ensures Invariant(me, Next(me, w, HistorySection(owner, cs, now)))
  {
    var s := Stamped(w.store.history, w.store.revision);
    var u := ExpireOwner(ApplyAll(s, owner, cs), owner, now);
    assert Evolves(s, u) && WellStamped(u) by {
      var t := ApplyAll(s, owner, cs);
      ApplyAllEvolves(s, owner, cs);
      ExpireRowsEvolves(t, owner, Ascending(ExpiredIds(t.rows, owner, now - HISTORY_RETENTION)));
      EvolvesTransitive(s, t, u);
    }
    assert Next(me, w, HistorySection(owner, cs, now)) == WithHistory(w, u);
    HistoryEvolutionKeeps(me, w, u);
  }

  lemma RetainKeepsStamps<C>(s: Stamped<C>, cutoff: Instant)
    requires WellStamped(s)
    ensures WellStamped(Stamped(Retain(s.rows, cutoff), s.revision))
  {
  }

  lemma SameKeysSameMisses<C>(me: Uuid, m: Mirror<C>, before: Rows<C>, expired: Rows<C>, after: Rows<C>)
    requires before.Keys == expired.Keys
    ensures Missed(me, m, before, after) == Missed(me, m, expired, after)
  {
  }

  lemma RetainedStoreKeeps(st: Store, cutoff: Instant)
    requires StoreInvariant(st)
    ensures StoreInvariant(Store(st.favourites, Retain(st.history, cutoff), st.revision))
  {
    RetainKeepsStamps(Stamped(st.history, st.revision), cutoff);
  }

  lemma SweptStoreKeeps(st: Store, t: Stamped<History>, cutoff: Instant)
    requires StoreInvariant(st) && Evolves(Stamped(st.history, st.revision), t) && WellStamped(t)
    ensures StoreInvariant(Store(st.favourites, Retain(t.rows, cutoff), t.revision))
  {
    SectionsStayDisjoint(Stamped(st.history, st.revision), t, st.favourites);
    RetainedStoreKeeps(Store(st.favourites, t.rows, t.revision), cutoff);
  }

  lemma SweptMirrorKeeps(me: Uuid, m: Mirror<History>, s: Stamped<History>, t: Stamped<History>, cutoff: Instant, cursor: nat)
    requires Tracks(s.rows, me, m, cursor) && cursor <= s.revision && Evolves(s, t) && s.rows.Keys == t.rows.Keys
    ensures Tracks(Retain(t.rows, cutoff), me, Bereft(me, m, s.rows, Retain(t.rows, cutoff)), cursor)
  {
    TracksThroughChange(s, t, me, m, cursor);
    TracksThroughPurge(t.rows, cutoff, me, m, cursor);
    SameKeysSameMisses(me, m, s.rows, t.rows, Retain(t.rows, cutoff));
  }

  lemma HistorySweepKeeps(me: Uuid, w: World, now: Instant)
    requires Invariant(me, w)
    ensures Invariant(me, Next(me, w, HistorySweep(now)))
  {
    var s := Stamped(w.store.history, w.store.revision);
    var t := ExpireFleet(s, now);
    assert Evolves(s, t) && WellStamped(t) by {
      ExpireOwnersEvolves(s, Ascending(Owners(s.rows)), now);
    }
    assert s.rows.Keys == t.rows.Keys by {
      ExpireFleetExact(s, now);
    }
    var st := SweepHistory(w.store, now);
    assert StoreInvariant(st) by {
      SweptStoreKeeps(w.store, t, now - TOMBSTONE_RETENTION);
    }
    assert Tracks(st.history, me, Bereft(me, w.history, w.store.history, st.history), w.cursor) by {
      SweptMirrorKeeps(me, w.history, s, t, now - TOMBSTONE_RETENTION, w.cursor);
    }
    assert Next(me, w, HistorySweep(now)) == WithPurged(me, w, st);
  }

  lemma HistoryMergeKeeps(me: Uuid, w: World, owner: Uuid, cs: seq<Change<History>>)
    requires Invariant(me, w)
    ensures Invariant(me, Next(me, w, HistoryMerge(owner, cs)))
  {
    var s := Stamped(w.store.history, w.store.revision);
    var t := ApplyAll(s, owner, cs);
    assert Evolves(s, t) && WellStamped(t) by {
      ApplyAllEvolves(s, owner, cs);
    }
    assert Next(me, w, HistoryMerge(owner, cs)) == WithHistory(w, t);
    HistoryEvolutionKeeps(me, w, t);
  }

  lemma HistoryExpiryKeeps(me: Uuid, w: World, owner: Uuid, id: Uuid)
    requires Invariant(me, w)
    ensures Invariant(me, Next(me, w, HistoryExpiry(owner, id)))
  {
    var s := Stamped(w.store.history, w.store.revision);
    var key := Key(owner, id);
    if key in s.rows && Live(s.rows[key]) {
      RestampEvolves(s, key, ExpireRow(s, key).rows[key]);
      HistoryEvolutionKeeps(me, w, ExpireRow(s, key));
    }
  }

  lemma HistoryPurgeKeeps(me: Uuid, w: World, now: Instant)
    requires Invariant(me, w)
    ensures Invariant(me, Next(me, w, HistoryPurge(now)))
  {
    var st := PurgeHistory(w.store, now);
    assert StoreInvariant(st) by {
      RetainedStoreKeeps(w.store, now - TOMBSTONE_RETENTION);
    }
    assert Tracks(st.history, me, Bereft(me, w.history, w.store.history, st.history), w.cursor) by {
      TracksThroughPurge(w.store.history, now - TOMBSTONE_RETENTION, me, w.history, w.cursor);
    }
    assert Next(me, w, HistoryPurge(now)) == WithPurged(me, w, st);
  }

  /** The expiry steps of one account, in the order of its ids. */
  function Expiries(owner: Uuid, ids: seq<Uuid>): seq<Step> {
    seq(|ids|, i requires 0 <= i < |ids| => HistoryExpiry(owner, ids[i]))
  }

  lemma {:induction false} ExpiryIsRowByRow(me: Uuid, w: World, owner: Uuid, ids: seq<Uuid>)
    requires Distinct(ids) && forall i :: 0 <= i < |ids| ==> Key(owner, ids[i]) in w.store.history && Live(w.store.history[Key(owner, ids[i])])
    ensures RunFrom(me, w, Expiries(owner, ids)) == WithHistory(w, ExpireRows(Stamped(w.store.history, w.store.revision), owner, ids))
  {
    if ids != [] {
      var front := ids[..|ids| - 1];
      var key := Key(owner, ids[|ids| - 1]);
      var s := Stamped(w.store.history, w.store.revision);
      ExpiryIsRowByRow(me, w, owner, front);
      assert Expiries(owner, ids)[..|ids| - 1] == Expiries(owner, front);
      var t := ExpireRows(s, owner, front);
      assert key in t.rows && Live(t.rows[key]) by {
        assert ids[|ids| - 1] !in front;
        ExpireRowsExact(s, owner, front);
      }
      assert Next(me, WithHistory(w, t), HistoryExpiry(owner, key.id)) == WithHistory(w, ExpireRow(t, key));
    }
  }

  /** The history section of one request is the merge of its batch followed by the expiry of one row at a time. */
  lemma HistorySectionIsRowByRow(me: Uuid, w: World, owner: Uuid, cs: seq<Change<History>>, now: Instant)
    ensures var merged := Next(me, w, HistoryMerge(owner, cs));
            var ids := Ascending(ExpiredIds(merged.store.history, owner, now - HISTORY_RETENTION));
            RunFrom(me, merged, Expiries(owner, ids)) == Next(me, w, HistorySection(owner, cs, now))
  {
    var merged := Next(me, w, HistoryMerge(owner, cs));
    var ids := Ascending(ExpiredIds(merged.store.history, owner, now - HISTORY_RETENTION));
    forall i | 0 <= i < |ids| ensures Key(owner, ids[i]) in merged.store.history && Live(merged.store.history[Key(owner, ids[i])]) {
      assert ids[i] in ids;
    }
    ExpiryIsRowByRow(me, merged, owner, ids);
  }

  lemma FavouriteSweepKeeps(me: Uuid, w: World, now: Instant)
    requires Invariant(me, w)
    ensures Invariant(me, Next(me, w, FavouriteSweep(now)))
  {
    TracksThroughPurge(w.store.favourites, now - TOMBSTONE_RETENTION, me, w.favourites, w.cursor);
    RetainKeepsStamps(Stamped(w.store.favourites, w.store.revision), now - TOMBSTONE_RETENTION);
  }

  lemma CursorIsBounded<C>(rows: Rows<C>, me: Uuid, cursor: nat, pushed: set<Uuid>, revision: nat)
    requires WellStamped(Stamped(rows, revision)) && cursor <= revision
    ensures DeltaAndEcho(rows, me, cursor, pushed).cursor <= revision
  {
    DeltaAndEchoIsExact(rows, me, cursor, pushed);
  }

  lemma ReadKeeps(me: Uuid, w: World, fs: set<Uuid>, hs: set<Uuid>)
    requires Invariant(me, w)
    ensures var w' := Next(me, w, ClientReads(fs, hs));
            && Invariant(me, w')
            && Agrees(w'.store.favourites, me, w'.favourites)
            && Agrees(w'.store.history, me, w'.history)
  {
    var reply := Respond(w.store, me, w.cursor, fs, hs);
    CursorIsBounded(w.store.favourites, me, w.cursor, fs, w.store.revision);
    CursorIsBounded(w.store.history, me, w.cursor, hs, w.store.revision);
    TracksThroughRead(w.store.favourites, me, w.favourites, w.cursor, fs, reply.serverRevision);
    TracksThroughRead(w.store.history, me, w.history, w.cursor, hs, reply.serverRevision);
  }

  lemma StepKeeps(me: Uuid, w: World, step: Step)
    requires Invariant(me, w)
    ensures Invariant(me, Next(me, w, step))
  {
    match step
    case FavouriteSection(owner, cs) => FavouriteSectionKeeps(me, w, owner, cs);
    case HistorySection(owner, cs, now) => HistorySectionKeeps(me, w, owner, cs, now);
    case ClientReads(fs, hs) => ReadKeeps(me, w, fs, hs);
    case HistorySweep(now) => HistorySweepKeeps(me, w, now);
    case FavouriteSweep(now) => FavouriteSweepKeeps(me, w, now);
    case HistoryMerge(owner, cs) => HistoryMergeKeeps(me, w, owner, cs);
    case HistoryExpiry(owner, id) => HistoryExpiryKeeps(me, w, owner, id);
    case HistoryPurge(now) => HistoryPurgeKeeps(me, w, now);
  }

  /** Every reachable state: distinct revisions at most the counter, tombstones stamped, replica tracked. */
  lemma {:induction false} RunKeeps(me: Uuid, steps: seq<Step>)
    ensures Invariant(me, Run(me, steps))
  {
    if steps != [] {
      RunKeeps(me, steps[..|steps| - 1]);
      StepKeeps(me, Run(me, steps[..|steps| - 1]), steps[|steps| - 1]);
    }
  }

  // ---------------------------------------------------------------------------------------------
  // Whole runs

  /**
    Convergence: after any run ending in a read of the client, its copy equals every row the server
    stores for the account, and the live sets coincide exactly when nothing was lost.
   */
  lemma ReplicaConverges(me: Uuid, steps: seq<Step>)
    requires steps != [] && steps[|steps| - 1].ClientReads?
    ensures var w := Run(me, steps);
            && Agrees(w.store.favourites, me, w.favourites)
            && Agrees(w.store.history, me, w.history)
            && (SameLiveSet(w.store.favourites, me, w.favourites) <==> w.favourites.lost == {})
            && (SameLiveSet(w.store.history, me, w.history) <==> w.history.lost == {})
  {
    var before := Run(me, steps[..|steps| - 1]);
    var last := steps[|steps| - 1];
    RunKeeps(me, steps[..|steps| - 1]);
    ReadKeeps(me, before, last.favouriteIds, last.historyIds);
    var w := Run(me, steps);
    AgreementDecidesLiveSet(w.store.favourites, me, w.favourites);
    AgreementDecidesLiveSet(w.store.history, me, w.history);
  }

  /** An accepted request of the client itself is the two merge sections followed by the read, in that order. */
  lemma SynchronizationIsThreeSteps(me: Uuid, w: World, r: SyncRequest, now: Instant)
    requires r.since == w.cursor && Synchronized(w.store, me, r, now).1.Ok?
    ensures var reply := Synchronized(w.store, me, r, now).1.value;
            var merged := Next(me, Next(me, w, FavouriteSection(me, FavouriteChanges(r))),
                               HistorySection(me, HistoryChanges(r), now));
            Next(me, merged, ClientReads(Elements(FavouriteIds(r)), Elements(HistoryIds(r))))
            == World(Synchronized(w.store, me, r, now).0, reply.serverRevision,
                     Learn(w.favourites, reply.favourites), Learn(w.history, reply.history))
  {
  }

  lemma AgreementDecidesLiveSet<C>(rows: Rows<C>, me: Uuid, m: Mirror<C>)
    requires Agrees(rows, me, m)
    ensures SameLiveSet(rows, me, m) <==> m.lost == {}
  {
    if m.lost != {} {
      var id :| id in m.lost;
      assert id in m.held && Live(m.held[id]) && Key(me, id) !in rows;
    }
  }

  /** Every tombstone of a held record that goes is one the client has read. */
  ghost predicate PurgesSeenRows<C>(me: Uuid, m: Mirror<C>, rows: Rows<C>, cutoff: Instant, cursor: nat) {
    forall id :: id in m.held && Key(me, id) in rows && Key(me, id) !in Retain(rows, cutoff) ==>
      rows[Key(me, id)].revision <= cursor
  }

  lemma SeenRowsAreNotMissed<C>(me: Uuid, m: Mirror<C>, rows: Rows<C>, cutoff: Instant, cursor: nat)
    requires Tracks(rows, me, m, cursor) && PurgesSeenRows(me, m, rows, cutoff, cursor)
    ensures Missed(me, m, rows, Retain(rows, cutoff)) == {}
  {
  }

  /** The client read after each tombstone it can hold a copy of was written and before this sweep purges it. */
  ghost predicate SeenBeforePurge(me: Uuid, w: World, step: Step) {
    match step
    case HistorySweep(now) =>
      var expired := ExpireFleet(Stamped(w.store.history, w.store.revision), now).rows;
      PurgesSeenRows(me, w.history, expired, now - TOMBSTONE_RETENTION, w.cursor)
    case FavouriteSweep(now) =>
      PurgesSeenRows(me, w.favourites, w.store.favourites, now - TOMBSTONE_RETENTION, w.cursor)
    case HistoryPurge(now) =>
      PurgesSeenRows(me, w.history, w.store.history, now - TOMBSTONE_RETENTION, w.cursor)
    case _ => true
  }

  lemma SeenPurgeLosesNothing(me: Uuid, w: World, step: Step)
    requires Invariant(me, w) && SeenBeforePurge(me, w, step)
    requires w.favourites.lost == {} && w.history.lost == {}
    ensures Next(me, w, step).favourites.lost == {} && Next(me, w, step).history.lost == {}
  {
    match step
    case HistorySweep(now) =>
      var s := Stamped(w.store.history, w.store.revision);
      var t := ExpireFleet(s, now);
      var after := Retain(t.rows, now - TOMBSTONE_RETENTION);
      assert Tracks(t.rows, me, w.history, w.cursor) by {
        ExpireOwnersEvolves(s, Ascending(Owners(s.rows)), now);
        TracksThroughChange(s, t, me, w.history, w.cursor);
      }
      assert Missed(me, w.history, s.rows, after) == Missed(me, w.history, t.rows, after) by {
        ExpireFleetExact(s, now);
        SameKeysSameMisses(me, w.history, s.rows, t.rows, after);
      }
      SeenRowsAreNotMissed(me, w.history, t.rows, now - TOMBSTONE_RETENTION, w.cursor);
    case FavouriteSweep(now) =>
      SeenRowsAreNotMissed(me, w.favourites, w.store.favourites, now - TOMBSTONE_RETENTION, w.cursor);
    case HistoryPurge(now) =>
      SeenRowsAreNotMissed(me, w.history, w.store.history, now - TOMBSTONE_RETENTION, w.cursor);
    case _ =>
  }

  /** A client that always reads between a tombstone's creation and its purge never diverges. */
  lemma {:induction false} PunctualClientNeverDiverges(me: Uuid, steps: seq<Step>)
    requires forall i :: 0 <= i < |steps| ==> SeenBeforePurge(me, Run(me, steps[..i]), steps[i])
    ensures Run(me, steps).favourites.lost == {} && Run(me, steps).history.lost == {}
    ensures steps != [] && steps[|steps| - 1].ClientReads? ==>
              && SameLiveSet(Run(me, steps).store.favourites, me, Run(me, steps).favourites)
              && SameLiveSet(Run(me, steps).store.history, me, Run(me, steps).history)
  {
    if steps != [] {
      var front := steps[..|steps| - 1];
      assert forall i :: 0 <= i < |front| ==> front[..i] == steps[..i];
      PunctualClientNeverDiverges(me, front);
      RunKeeps(me, front);
      SeenPurgeLosesNothing(me, Run(me, front), steps[|steps| - 1]);
      if steps[|steps| - 1].ClientReads? {
        ReplicaConverges(me, steps);
      }
    }
  }

  /**
    The exception: a live history row whose start and last update both lie past retention is tombstoned
    and purged by one and the same sweep, so a client holding it keeps it as live after its next read.
   */
  lemma ExpiredAndPurgedTogetherIsLost(me: Uuid, steps: seq<Step>, id: Uuid, now: Instant, fs: set<Uuid>, hs: set<Uuid>)
    requires var w := Run(me, steps);
             && Key(me, id) in w.store.history && id in w.history.held && Live(w.history.held[id])
             && IsExpired(w.store.history[Key(me, id)], now - HISTORY_RETENTION)
             && w.store.history[Key(me, id)].updatedAt < now - TOMBSTONE_RETENTION
    ensures var w' := Run(me, steps + [HistorySweep(now), ClientReads(fs, hs)]);
            && Key(me, id) !in w'.store.history
            && id in w'.history.held && Live(w'.history.held[id])
            && !SameLiveSet(w'.store.history, me, w'.history)
  {
    var all := steps + [HistorySweep(now), ClientReads(fs, hs)];
    var mid := all[..|all| - 1];
    assert mid[..|mid| - 1] == steps;
    var w := Run(me, steps);
    var swept := Run(me, mid);
    assert swept == Next(me, w, HistorySweep(now));
    assert Key(me, id) !in swept.store.history by {
      ExpireFleetExact(Stamped(w.store.history, w.store.revision), now);
    }
    LostStaysHeld(me, swept.history, swept.store.history, swept.cursor, hs, id);
  }

  /** A live copy whose row is gone is neither changed nor dropped by a read. */
  lemma LostStaysHeld<C>(me: Uuid, m: Mirror<C>, rows: Rows<C>, cursor: nat, pushed: set<Uuid>, id: Uuid)
    requires id in m.held && Live(m.held[id]) && Key(me, id) !in rows
    ensures var m' := Learn(m, DeltaAndEcho(rows, me, cursor, pushed).entries);
            id in m'.held && Live(m'.held[id]) && !SameLiveSet(rows, me, m')
  {
    var entries := DeltaAndEcho(rows, me, cursor, pushed).entries;
    DeltaAndEchoIsExact(rows, me, cursor, pushed);
    FoldOverwrites(rows, me, m.held, entries);
  }

  /** One pushed play, one read, and one sweep after both retention periods: the copy is lost in a run of the model. */
  lemma LostCopyIsReachable(me: Uuid, id: Uuid, at: Instant, now: Instant) returns (steps: seq<Step>)
    requires now > at + HISTORY_RETENTION && now > at + TOMBSTONE_RETENTION
    ensures steps != [] && steps[|steps| - 1].ClientReads?
    ensures !SameLiveSet(Run(me, steps).store.history, me, Run(me, steps).history)
  {
    var play := Upsert(id, at, History(Some("station"), at, at, None, None, None));
    var push := HistorySection(me, [play], at);
    var start := [push, ClientReads({}, {})];
    assert start[..1] == [push] && [push][..0] == [];
    assert Run(me, [push]) == Next(me, Start, push);
    var pushed := Apply(Stamped(map[], 0), me, play);
    assert [play][..0] == [] && ApplyAll(Stamped(map[], 0), me, [play]) == pushed;
    assert pushed.rows[Key(me, id)].content.startedAt == at;
    ExpireOwnerExact(pushed, me, at);
    ReplicaConverges(me, start);
    ExpiredAndPurgedTogetherIsLost(me, start, id, now, {}, {});
    steps := start + [HistorySweep(now), ClientReads({}, {})];
  }
}
