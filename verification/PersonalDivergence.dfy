/** Exactly when a client that follows the cursor ends up with a live record the server no longer has. */
module PersonalDivergence {
  import opened Common
  import opened PersonalSync
  import opened PersonalStore
  import opened PersonalGuarantees
  import opened PersonalReplica

  /** The client shows the play, and what this step finds or makes its deletion instant is past tombstone retention. */
  ghost predicate PlayGoesUnseen(me: Uuid, w: World, step: Step, id: Uuid) {
    && id in w.history.held && Live(w.history.held[id]) && Key(me, id) in w.store.history
    && var row := w.store.history[Key(me, id)];
    match step
    case HistorySweep(now) => DeletionInstant(row, now).Some? && DeletionInstant(row, now).value < now - TOMBSTONE_RETENTION
    case HistoryPurge(now) => row.deletedAt.Some? && row.deletedAt.value < now - TOMBSTONE_RETENTION
    case _ => false
  }

  ghost predicate FavouriteGoesUnseen(me: Uuid, w: World, step: Step, id: Uuid) {
    && id in w.favourites.held && Live(w.favourites.held[id]) && Key(me, id) in w.store.favourites
    && var row := w.store.favourites[Key(me, id)];
    step.FavouriteSweep? && row.deletedAt.Some? && row.deletedAt.value < step.now - TOMBSTONE_RETENTION
  }

  /** A sweep loses exactly these copies, by instants that the stored row and the clock decide. */
  lemma {:induction false} PurgeLossIsExact(me: Uuid, w: World, step: Step, id: Uuid)
    requires !step.ClientReads?
    ensures id in Next(me, w, step).history.lost <==> id in w.history.lost || PlayGoesUnseen(me, w, step, id)
    ensures id in Next(me, w, step).favourites.lost <==> id in w.favourites.lost || FavouriteGoesUnseen(me, w, step, id)
  {
    if step.HistorySweep? && Key(me, id) in w.store.history {
      SweepIsExact(w.store, step.now, Key(me, id));
    }
  }

  /** For a client whose copy of the play is the stored row: it is lost exactly when start and last update are both over 90 days old. */
  lemma CurrentCopyLossIsExact(me: Uuid, w: World, now: Instant, id: Uuid)
    requires Key(me, id) in w.store.history && id in w.history.held && w.history.held[id] == w.store.history[Key(me, id)]
    ensures PlayGoesUnseen(me, w, HistorySweep(now), id) <==>
              var row := w.store.history[Key(me, id)];
              Live(row) && row.content.startedAt < now - HISTORY_RETENTION && row.updatedAt < now - TOMBSTONE_RETENTION
  {
  }

  /** A favourite the client has just read is never lost: only a tombstone it has not seen can be. */
  lemma CurrentFavouriteIsNotLost(me: Uuid, w: World, step: Step, id: Uuid)
    requires Key(me, id) in w.store.favourites && id in w.favourites.held && w.favourites.held[id] == w.store.favourites[Key(me, id)]
    ensures !FavouriteGoesUnseen(me, w, step, id)
  {
  }

  /** A read recovers a lost copy exactly when the record exists again. */
  lemma {:induction false} ReadRecovers<C>(me: Uuid, rows: Rows<C>, m: Mirror<C>, cursor: nat, pushed: set<Uuid>, id: Uuid)
    requires Tracks(rows, me, m, cursor)
    ensures id in Learn(m, DeltaAndEcho(rows, me, cursor, pushed).entries).lost <==> id in m.lost && Key(me, id) !in rows
  {
    var entries := DeltaAndEcho(rows, me, cursor, pushed).entries;
    DeltaAndEchoIsExact(rows, me, cursor, pushed);
    if id in m.lost && Key(me, id) in rows {
      assert Entry(id, rows[Key(me, id)]) in entries;
    }
  }

  // ---------------------------------------------------------------------------------------------
  // Whole runs

  /** `taken` holds at some position below `n`, and `seen` at none after it. */
  ghost predicate Standing(n: nat, taken: nat -> bool, seen: nat -> bool) {
    exists i: nat :: i < n && taken(i) && NoneBetween(i, n, seen)
  }

  ghost predicate NoneBetween(i: nat, n: nat, seen: nat -> bool) {
    forall j: nat :: i < j < n ==> !seen(j)
  }

  lemma StandingStep(n: nat, taken: nat -> bool, seen: nat -> bool)
    ensures Standing(n + 1, taken, seen) <==> taken(n) || (Standing(n, taken, seen) && !seen(n))
  {
    if Standing(n + 1, taken, seen) {
      var i: nat :| i < n + 1 && taken(i) && NoneBetween(i, n + 1, seen);
      assert i < n ==> NoneBetween(i, n, seen);
    }
    if taken(n) {
      assert NoneBetween(n, n + 1, seen);
    } else if Standing(n, taken, seen) && !seen(n) {
      var i: nat :| i < n && taken(i) && NoneBetween(i, n, seen);
      assert NoneBetween(i, n + 1, seen);
    }
  }

  /** Step `i` of the run takes the play unseen; step `j` reads while the record is stored. */
  ghost predicate PlayTaken(me: Uuid, steps: seq<Step>, id: Uuid, i: nat) {
    i < |steps| && PlayGoesUnseen(me, Run(me, steps[..i]), steps[i], id)
  }

  ghost predicate PlaySeen(me: Uuid, steps: seq<Step>, id: Uuid, j: nat) {
    j < |steps| && steps[j].ClientReads? && Key(me, id) in Run(me, steps[..j]).store.history
  }

  ghost predicate FavouriteTaken(me: Uuid, steps: seq<Step>, id: Uuid, i: nat) {
    i < |steps| && FavouriteGoesUnseen(me, Run(me, steps[..i]), steps[i], id)
  }

  ghost predicate FavouriteSeen(me: Uuid, steps: seq<Step>, id: Uuid, j: nat) {
    j < |steps| && steps[j].ClientReads? && Key(me, id) in Run(me, steps[..j]).store.favourites
  }

  /** Some purge took the record unseen, and no later read met it again. */
  ghost predicate PlayDiverged(me: Uuid, steps: seq<Step>, id: Uuid) {
    Standing(|steps|, (i: nat) => PlayTaken(me, steps, id, i), (j: nat) => PlaySeen(me, steps, id, j))
  }

  ghost predicate FavouriteDiverged(me: Uuid, steps: seq<Step>, id: Uuid) {
    Standing(|steps|, (i: nat) => FavouriteTaken(me, steps, id, i), (j: nat) => FavouriteSeen(me, steps, id, j))
  }

  lemma PrefixAgrees(me: Uuid, steps: seq<Step>, id: Uuid, i: nat)
    requires i < |steps| - 1
    ensures var front := steps[..|steps| - 1];
            && PlayTaken(me, front, id, i) == PlayTaken(me, steps, id, i) && PlaySeen(me, front, id, i) == PlaySeen(me, steps, id, i)
            && FavouriteTaken(me, front, id, i) == FavouriteTaken(me, steps, id, i)
            && FavouriteSeen(me, front, id, i) == FavouriteSeen(me, steps, id, i)
  {
    assert steps[..|steps| - 1][..i] == steps[..i];
  }

  lemma DivergedStep(me: Uuid, steps: seq<Step>, id: Uuid)
    requires steps != []
    ensures var front := steps[..|steps| - 1]; var n := |steps| - 1;
            && (PlayDiverged(me, steps, id) <==>
                  PlayTaken(me, steps, id, n) || (PlayDiverged(me, front, id) && !PlaySeen(me, steps, id, n)))
            && (FavouriteDiverged(me, steps, id) <==>
                  FavouriteTaken(me, steps, id, n) || (FavouriteDiverged(me, front, id) && !FavouriteSeen(me, steps, id, n)))
  {
    var front := steps[..|steps| - 1];
    var n := |steps| - 1;
    var pt, ps := (i: nat) => PlayTaken(me, steps, id, i), (j: nat) => PlaySeen(me, steps, id, j);
    var ft, fs := (i: nat) => FavouriteTaken(me, steps, id, i), (j: nat) => FavouriteSeen(me, steps, id, j);
    StandingStep(n, pt, ps);
    StandingStep(n, ft, fs);
    forall i: nat | i < n ensures PlayTaken(me, front, id, i) == pt(i) && PlaySeen(me, front, id, i) == ps(i)
      && FavouriteTaken(me, front, id, i) == ft(i) && FavouriteSeen(me, front, id, i) == fs(i)
    {
      PrefixAgrees(me, steps, id, i);
    }
    FrontStands(n, pt, ps, (i: nat) => PlayTaken(me, front, id, i), (j: nat) => PlaySeen(me, front, id, j));
    FrontStands(n, ft, fs, (i: nat) => FavouriteTaken(me, front, id, i), (j: nat) => FavouriteSeen(me, front, id, j));
  }

  lemma FrontStands(n: nat, taken: nat -> bool, seen: nat -> bool, taken': nat -> bool, seen': nat -> bool)
    requires forall i: nat :: i < n ==> taken(i) == taken'(i) && seen(i) == seen'(i)
    ensures Standing(n, taken, seen) <==> Standing(n, taken', seen')
  {
    if Standing(n, taken, seen) {
    }
    if Standing(n, taken', seen') {
    }
  }

  lemma {:induction false} LossIsExact(me: Uuid, steps: seq<Step>, id: Uuid)
    ensures id in Run(me, steps).history.lost <==> PlayDiverged(me, steps, id)
    ensures id in Run(me, steps).favourites.lost <==> FavouriteDiverged(me, steps, id)
  {
    if steps != [] {
      var front := steps[..|steps| - 1];
      var last := steps[|steps| - 1];
      var w := Run(me, front);
      LossIsExact(me, front, id);
      DivergedStep(me, steps, id);
      if last.ClientReads? {
        RunKeeps(me, front);
        ReadRecovers(me, w.store.favourites, w.favourites, w.cursor, last.favouriteIds, id);
        ReadRecovers(me, w.store.history, w.history, w.cursor, last.historyIds, id);
      } else {
        PurgeLossIsExact(me, w, last, id);
      }
    }
  }

  /**
    Over every run ending in the client's read, its live set differs from the server's exactly when some purge took a
    record it showed as live, by the instants of the stored row, and the client has not read since while the record was stored.
   */
  lemma {:induction false} DivergenceIsExact(me: Uuid, steps: seq<Step>)
    requires steps != [] && steps[|steps| - 1].ClientReads?
    ensures var w := Run(me, steps);
            && (SameLiveSet(w.store.history, me, w.history) <==> forall id :: !PlayDiverged(me, steps, id))
            && (SameLiveSet(w.store.favourites, me, w.favourites) <==> forall id :: !FavouriteDiverged(me, steps, id))
  {
    ReplicaConverges(me, steps);
    var w := Run(me, steps);
    assert w.history.lost == {} <==> forall id :: id !in w.history.lost;
    assert w.favourites.lost == {} <==> forall id :: id !in w.favourites.lost;
    forall id ensures (id in w.history.lost <==> PlayDiverged(me, steps, id)) && (id in w.favourites.lost <==> FavouriteDiverged(me, steps, id)) {
      LossIsExact(me, steps, id);
    }
  }
}
