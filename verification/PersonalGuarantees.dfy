/** What one call guarantees its caller: answers to every push, limits, retention, and isolation of accounts. */
module PersonalGuarantees {
  import opened Common
  import opened PersonalSync
  import opened PersonalStore
  import opened PersonalMerge

  /** The reply shows what became of the change: an equally new or newer row, or a tombstone that a delete left alone. */
  ghost predicate Answered<C(!new)>(entries: seq<Entry<C>>, c: Change<C>) {
    exists e :: e in entries && e.id == c.id && (c.at <= e.row.updatedAt || (c.Delete? && !Live(e.row)))
  }

  lemma AbsorbedIsAnswered<C(!new)>(rows: Rows<C>, owner: Uuid, since: nat, pushed: set<Uuid>, c: Change<C>)
    requires Absorbed(rows, owner, c) && c.id in pushed
    ensures Answered(DeltaAndEcho(rows, owner, since, pushed).entries, c)
  {
    DeltaAndEchoIsExact(rows, owner, since, pushed);
    assert Entry(c.id, rows[Key(owner, c.id)]) in DeltaAndEcho(rows, owner, since, pushed).entries;
  }

  lemma PushedIds(r: SyncRequest)
    ensures forall i :: 0 <= i < |FavouriteChanges(r)| ==> FavouriteChanges(r)[i].id in Elements(FavouriteIds(r))
    ensures forall i :: 0 <= i < |HistoryChanges(r)| ==> HistoryChanges(r)[i].id in Elements(HistoryIds(r))
  {
    forall i | 0 <= i < |FavouriteChanges(r)| ensures FavouriteChanges(r)[i].id in Elements(FavouriteIds(r)) {
      assert FavouriteChanges(r)[i].id == FavouriteIds(r)[i];
    }
    forall i | 0 <= i < |HistoryChanges(r)| ensures HistoryChanges(r)[i].id in Elements(HistoryIds(r)) {
      assert HistoryChanges(r)[i].id == HistoryIds(r)[i];
    }
  }

  lemma ExpiryKeepsAbsorption(s: Stamped<History>, owner: Uuid, now: Instant, c: Change<History>)
    requires Absorbed(s.rows, owner, c)
    ensures Absorbed(ExpireOwner(s, owner, now).rows, owner, c)
  {
    ExpireOwnerExact(s, owner, now);
  }

  /** No push stays unanswered: an accepted request returns, for each change it carried, the row that change met. */
  lemma EveryPushIsAnswered(st: Store, owner: Uuid, r: SyncRequest, now: Instant)
    requires Synchronized(st, owner, r, now).1.Ok?
    ensures var reply := Synchronized(st, owner, r, now).1.value;
            && (forall i :: 0 <= i < |FavouriteChanges(r)| ==> Answered(reply.favourites, FavouriteChanges(r)[i]))
            && (forall i :: 0 <= i < |HistoryChanges(r)| ==> Answered(reply.history, HistoryChanges(r)[i]))
  {
    var fs, hs := FavouriteChanges(r), HistoryChanges(r);
    var s1 := Stamped(st.favourites, st.revision);
    var t1 := ApplyAll(s1, owner, fs);
    var s2 := Stamped(st.history, t1.revision);
    var t2 := ApplyAll(s2, owner, hs);
    PushedIds(r);
    BatchIsAbsorbed(s1, owner, fs);
    forall i | 0 <= i < |fs| ensures Answered(Synchronized(st, owner, r, now).1.value.favourites, fs[i]) {
      AbsorbedIsAnswered(t1.rows, owner, r.since, Elements(FavouriteIds(r)), fs[i]);
    }
    BatchIsAbsorbed(s2, owner, hs);
    forall i | 0 <= i < |hs| ensures Answered(Synchronized(st, owner, r, now).1.value.history, hs[i]) {
      ExpiryKeepsAbsorption(t2, owner, now, hs[i]);
      AbsorbedIsAnswered(ExpireOwner(t2, owner, now).rows, owner, r.since, Elements(HistoryIds(r)), hs[i]);
    }
  }

  const NINETY_DAYS: int := 7_776_000_000_000_000

  ghost predicate NoOldPlays(rows: Rows<History>, owner: Uuid, now: Instant) {
    forall key :: key in LiveKeys(rows, owner) ==> rows[key].content.startedAt >= now - NINETY_DAYS
  }

  lemma ExpiryLeavesNoOldPlays(s: Stamped<History>, owner: Uuid, now: Instant)
    ensures NoOldPlays(ExpireOwner(s, owner, now).rows, owner, now)
  {
    ExpireOwnerExact(s, owner, now);
  }

  /** An accepted request leaves its account within both limits and without a live play past retention. */
  lemma AcceptedAccountIsWithinLimits(st: Store, owner: Uuid, r: SyncRequest, now: Instant)
    requires Synchronized(st, owner, r, now).1.Ok?
    ensures var after := Synchronized(st, owner, r, now).0;
            && |LiveKeys(after.favourites, owner)| <= 500
            && |LiveKeys(after.history, owner)| <= 500
            && NoOldPlays(after.history, owner, now)
  {
    var st1 := PushFavourites(st, owner, FavouriteChanges(r));
    var st2 := PushHistory(st1, owner, HistoryChanges(r), now);
    ExpiryLeavesNoOldPlays(ApplyAll(Stamped(st1.history, st1.revision), owner, HistoryChanges(r)), owner, now);
    assert Synchronized(st, owner, r, now).0 == st2;
  }

  lemma {:induction false} ChangesStayInAccount<C>(s: Stamped<C>, owner: Uuid, cs: seq<Change<C>>, key: Key)
    requires key.owner != owner
    ensures key in ApplyAll(s, owner, cs).rows <==> key in s.rows
    ensures key in s.rows ==> ApplyAll(s, owner, cs).rows[key] == s.rows[key]
  {
    if cs != [] {
      ChangesStayInAccount(s, owner, cs[..|cs| - 1], key);
    }
  }

  /** No request of one account, accepted or not, touches a row of another. */
  lemma OtherAccountsAreUntouched(st: Store, owner: Uuid, r: SyncRequest, now: Instant, key: Key)
    requires key.owner != owner
    ensures var after := Synchronized(st, owner, r, now).0;
            && (key in after.favourites <==> key in st.favourites)
            && (key in st.favourites ==> after.favourites[key] == st.favourites[key])
            && (key in after.history <==> key in st.history)
            && (key in st.history ==> after.history[key] == st.history[key])
  {
    var st1 := PushFavourites(st, owner, FavouriteChanges(r));
    ChangesStayInAccount(Stamped(st.favourites, st.revision), owner, FavouriteChanges(r), key);
    ChangesStayInAccount(Stamped(st1.history, st1.revision), owner, HistoryChanges(r), key);
    ExpireOwnerExact(ApplyAll(Stamped(st1.history, st1.revision), owner, HistoryChanges(r)), owner, now);
  }

  /** The instant from which the purge counts a row's age, if the sweep at `now` finds or makes it a tombstone. */
  function DeletionInstant(row: Row<History>, now: Instant): Option<Instant> {
    if row.deletedAt == None && row.content.startedAt < now - NINETY_DAYS then Some(row.updatedAt) else row.deletedAt
  }

  /**
    A sweep removes exactly the history rows whose deletion instant lies more than 90 days back, where a play expired by
    this very sweep counts as deleted at its last update; rows it keeps differ at most in deletion instant and revision.
   */
  lemma SweepIsExact(st: Store, now: Instant, key: Key)
    requires key in st.history
    ensures var row := st.history[key]; var after := SweepHistory(st, now).history;
            && (key !in after <==>
                  DeletionInstant(row, now).Some? && DeletionInstant(row, now).value < now - NINETY_DAYS)
            && (key in after ==> after[key] == row.(deletedAt := DeletionInstant(row, now), revision := after[key].revision))
            && (key in after && DeletionInstant(row, now) == row.deletedAt ==> after[key] == row)
  {
    ExpireFleetExact(Stamped(st.history, st.revision), now);
  }

  /** Of favourites it removes exactly the tombstones over 90 days old, and changes none it keeps. */
  lemma {:induction false} FavouriteSweepIsExact(st: Store, now: Instant, key: Key)
    requires key in st.favourites
    ensures var row := st.favourites[key]; var after := SweepFavourites(st, now).favourites;
            && (key !in after <==> row.deletedAt != None && row.deletedAt.value < now - NINETY_DAYS)
            && (key in after ==> after[key] == row)
  {
  }
}
