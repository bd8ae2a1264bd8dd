/** Laws of the last-writer-wins merge: arrival order and replay. */
module PersonalMerge {
  import opened Common
  import opened PersonalSync
  import opened PersonalStore

  // ---------------------------------------------------------------------------------------------
  // Arrival order of changes to one record of an empty store

  /** What a reader can tell about a record: its instant and, when it is live, its content. */
  datatype View<C> = View(updatedAt: Instant, content: Option<C>)

  function ViewOf<C>(row: Row<C>): View<C> {
    View(row.updatedAt, if Live(row) then Some(row.content) else None)
  }

  function Winning<C>(c: Change<C>): View<C> {
    match c
    case Upsert(_, at, content) => View(at, Some(content))
    case Delete(_, at, _) => View(at, None)
  }

  function Arrive<C>(key: Key, cs: seq<Change<C>>): Rows<C> {
    ApplyAll(Stamped(map[], 0), key.owner, cs).rows
  }

  function Observe<C>(key: Key, cs: seq<Change<C>>): Option<View<C>> {
    var rows := Arrive(key, cs);
    if key in rows then Some(ViewOf(rows[key])) else None
  }

  ghost predicate SameRecord<C(!new)>(cs: seq<Change<C>>, id: Uuid) {
    forall c :: c in cs ==> c.id == id
  }

  ghost predicate DistinctTimes<C>(cs: seq<Change<C>>) {
    forall i, j :: 0 <= i < j < |cs| ==> cs[i].at != cs[j].at
  }

  ghost predicate Latest<C(!new)>(cs: seq<Change<C>>, c: Change<C>) {
    c in cs && forall d :: d in cs ==> d.at < c.at || d == c
  }

  ghost predicate OnlyDelete<C(!new)>(cs: seq<Change<C>>, c: Change<C>) {
    forall d :: d in cs && d.Delete? ==> d == c
  }

  ghost predicate OrderIndependent<C(!new)>(key: Key, cs: seq<Change<C>>) {
    forall p: seq<Change<C>>, q: seq<Change<C>> :: multiset(p) == multiset(cs) && multiset(q) == multiset(cs) ==>
      Observe(key, p) == Observe(key, q)
  }

  lemma {:induction false} LatestWins<C(!new)>(key: Key, cs: seq<Change<C>>, c: Change<C>)
    requires SameRecord(cs, key.id) && c.id == key.id
    requires forall d :: d in cs ==> d.at < c.at || d == c
    requires c.Upsert? || OnlyDelete(cs, c)
    ensures c in cs ==> Observe(key, cs) == Some(Winning(c))
    ensures c !in cs && key in Arrive(key, cs) ==>
              Arrive(key, cs)[key].updatedAt < c.at && (c.Delete? ==> Live(Arrive(key, cs)[key]))
  {
    if cs != [] {
      var front := cs[..|cs| - 1];
      var last := cs[|cs| - 1];
      assert cs == front + [last];
      assert forall d :: d in front ==> d in cs;
      LatestWins(key, front, c);
      assert last in cs;
      assert Key(key.owner, last.id) == key;
    }
  }

  lemma {:induction false} InstantNeverReached<C>(s: Stamped<C>, key: Key, cs: seq<Change<C>>, at: Instant)
    requires key in s.rows && s.rows[key].updatedAt != at
    requires forall i :: 0 <= i < |cs| ==> cs[i].at != at && cs[i].id == key.id
    ensures key in ApplyAll(s, key.owner, cs).rows && ApplyAll(s, key.owner, cs).rows[key].updatedAt != at
  {
    if cs != [] {
      InstantNeverReached(s, key, cs[..|cs| - 1], at);
      assert Key(key.owner, cs[|cs| - 1].id) == key;
    }
  }

  lemma {:induction false} ApplyAllSplits<C>(s: Stamped<C>, owner: Uuid, a: seq<Change<C>>, b: seq<Change<C>>)
    ensures ApplyAll(s, owner, a + b) == ApplyAll(ApplyAll(s, owner, a), owner, b)
  {
    if b == [] {
      assert a + b == a;
    } else {
      assert (a + b)[..|a + b| - 1] == a + b[..|b| - 1];
      ApplyAllSplits(s, owner, a, b[..|b| - 1]);
    }
  }

  lemma PullOut<T>(s: seq<T>, x: T) returns (rest: seq<T>)
    requires x in s
    ensures multiset([x] + rest) == multiset(s) == multiset{x} + multiset(rest)
  {
    var i :| 0 <= i < |s| && s[i] == x;
    rest := s[..i] + s[i + 1..];
    assert s == s[..i] + [x] + s[i + 1..];
  }

  lemma OccursOnce<C>(cs: seq<Change<C>>, c: Change<C>)
    requires DistinctTimes(cs) && c in cs
    ensures multiset(cs)[c] == 1
  {
    var i :| 0 <= i < |cs| && cs[i] == c;
    assert cs == cs[..i] + [c] + cs[i + 1..];
    assert c !in cs[..i] && c !in cs[i + 1..];
  }

  /** A delete that meets a tombstone is ignored, so with an earlier delete first the latest one never takes effect. */
  lemma TailIsOlder<C(!new)>(key: Key, cs: seq<Change<C>>, c: Change<C>, d: Change<C>, tail: seq<Change<C>>)
    requires SameRecord(cs, key.id) && DistinctTimes(cs) && Latest(cs, c)
    requires multiset(cs) == multiset{c} + (multiset{d} + multiset(tail))
    ensures forall j :: 0 <= j < |tail| ==> tail[j].at != c.at && tail[j].id == key.id
  {
    OccursOnce(cs, c);
    forall j | 0 <= j < |tail| ensures tail[j].at != c.at && tail[j].id == key.id {
      assert tail[j] in multiset(tail);
      assert tail[j] in multiset(cs) && tail[j] != c;
      assert tail[j] in cs;
    }
  }

  lemma SecondDeleteCanBeIgnored<C(!new)>(key: Key, cs: seq<Change<C>>, c: Change<C>, d: Change<C>)
    requires SameRecord(cs, key.id) && DistinctTimes(cs) && Latest(cs, c)
    requires c.Delete? && d in cs && d.Delete? && d != c
    ensures !OrderIndependent(key, cs)
  {
    var rest := PullOut(cs, c);
    assert d in multiset(cs) && d in multiset(rest);
    var tail := PullOut(rest, d);
    LatestArrivesFirst(key, cs, c, rest);
    TailIsOlder(key, cs, c, d, tail);
    EarlierDeleteFirst(key, c, d, tail);
    var p, q := [c] + rest, [d, c] + tail;
    assert q == [d] + [c] + tail;
    assert multiset(p) == multiset(cs) && multiset(q) == multiset(cs);
    assert Observe(key, p) != Observe(key, q);
  }

  lemma LatestArrivesFirst<C(!new)>(key: Key, cs: seq<Change<C>>, c: Change<C>, rest: seq<Change<C>>)
    requires SameRecord(cs, key.id) && Latest(cs, c) && c.Delete?
    requires multiset([c] + rest) == multiset(cs)
    ensures Observe(key, [c] + rest) == Some(Winning(c))
  {
    var s := Apply(Stamped(map[], 0), key.owner, c);
    assert ApplyAll(Stamped(map[], 0), key.owner, [c]) == s;
    ApplyAllSplits(Stamped(map[], 0), key.owner, [c], rest);
    forall j | 0 <= j < |rest| ensures rest[j].at <= c.at && rest[j].id == key.id {
      assert ([c] + rest)[j + 1] in multiset(cs);
      assert rest[j] in cs;
    }
    TombstoneStands(s, key, rest);
  }

  lemma {:induction false} TombstoneStands<C>(s: Stamped<C>, key: Key, cs: seq<Change<C>>)
    requires key in s.rows && !Live(s.rows[key])
    requires forall i :: 0 <= i < |cs| ==> cs[i].at <= s.rows[key].updatedAt && cs[i].id == key.id
    ensures ApplyAll(s, key.owner, cs) == s
  {
    if cs != [] {
      TombstoneStands(s, key, cs[..|cs| - 1]);
      assert Key(key.owner, cs[|cs| - 1].id) == key;
    }
  }

  lemma EarlierDeleteFirst<C(!new)>(key: Key, c: Change<C>, d: Change<C>, tail: seq<Change<C>>)
    requires c.Delete? && d.Delete? && c.id == d.id == key.id && d.at != c.at
    requires forall i :: 0 <= i < |tail| ==> tail[i].at != c.at && tail[i].id == key.id
    ensures Observe(key, [d, c] + tail) != Some(Winning(c))
  {
    var start := Stamped(map[], 0);
    var s := Apply(start, key.owner, d);
    assert ApplyAll(start, key.owner, [d]) == s;
    assert [d, c][..1] == [d];
    assert ApplyAll(start, key.owner, [d, c]) == s;
    ApplyAllSplits(start, key.owner, [d, c], tail);
    InstantNeverReached(s, key, tail, c.at);
  }

  /**
    For changes with distinct instants to one record of an empty store, liveness, instant and live content
    are the same for every arrival order exactly when the latest change is an upsert or the only delete.
   */
  lemma OrderIndependenceIsExact<C(!new)>(key: Key, cs: seq<Change<C>>, c: Change<C>)
    requires SameRecord(cs, key.id) && DistinctTimes(cs) && Latest(cs, c)
    ensures OrderIndependent(key, cs) <==> c.Upsert? || OnlyDelete(cs, c)
    ensures OrderIndependent(key, cs) ==> Observe(key, cs) == Some(Winning(c))
  {
    if c.Upsert? || OnlyDelete(cs, c) {
      forall p: seq<Change<C>> | multiset(p) == multiset(cs) ensures Observe(key, p) == Some(Winning(c)) {
        forall d ensures d in p <==> d in cs {
          assert d in p <==> d in multiset(p);
          assert d in cs <==> d in multiset(cs);
        }
        LatestWins(key, p, c);
      }
    } else {
      var d :| d in cs && d.Delete? && d != c;
      SecondDeleteCanBeIgnored(key, cs, c, d);
    }
  }

  /** Two deletes around an upsert: even liveness depends on the order. */
  lemma TwoDeletesAroundAnUpsertDisagree<C>(key: Key, stub: C, content: C)
    ensures var d1 := Delete(key.id, 1, stub); var u := Upsert(key.id, 2, content); var d2 := Delete(key.id, 3, stub);
            && Observe(key, [d1, u, d2]) == Some(View(3, None))
            && Observe(key, [d1, d2, u]) == Some(View(2, Some(content)))
  {
    var d1 := Delete(key.id, 1, stub);
    var u := Upsert(key.id, 2, content);
    var d2 := Delete(key.id, 3, stub);
    var s0 := Stamped(map[], 0);
    var s1 := Apply(s0, key.owner, d1);
    assert ApplyAll(s0, key.owner, [d1]) == s1;
    assert [d1, u][..1] == [d1] && [d1, d2][..1] == [d1];
    assert ApplyAll(s0, key.owner, [d1, u]) == Apply(s1, key.owner, u);
    assert ApplyAll(s0, key.owner, [d1, d2]) == s1;
    assert [d1, u, d2][..2] == [d1, u] && [d1, d2, u][..2] == [d1, d2];
  }

  // ---------------------------------------------------------------------------------------------
  // Replay

  /** Applying `c` again would change nothing. */
  ghost predicate Absorbed<C>(rows: Rows<C>, owner: Uuid, c: Change<C>) {
    var key := Key(owner, c.id);
    key in rows && (c.at <= rows[key].updatedAt || (c.Delete? && !Live(rows[key])))
  }

  ghost predicate UpsertsBeforeDeletes<C>(cs: seq<Change<C>>) {
    forall i, j :: 0 <= i < j < |cs| && cs[i].Delete? ==> cs[j].Delete?
  }

  lemma {:induction false} AbsorbedBatchIsNoOp<C>(s: Stamped<C>, owner: Uuid, cs: seq<Change<C>>)
    requires forall i :: 0 <= i < |cs| ==> Absorbed(s.rows, owner, cs[i])
    ensures ApplyAll(s, owner, cs) == s
  {
    if cs != [] {
      AbsorbedBatchIsNoOp(s, owner, cs[..|cs| - 1]);
    }
  }

  lemma {:induction false} BatchIsAbsorbed<C>(s: Stamped<C>, owner: Uuid, cs: seq<Change<C>>)
    requires UpsertsBeforeDeletes(cs)
    ensures forall i :: 0 <= i < |cs| ==> Absorbed(ApplyAll(s, owner, cs).rows, owner, cs[i])
  {
    if cs != [] {
      var front := cs[..|cs| - 1];
      BatchIsAbsorbed(s, owner, front);
      forall i | 0 <= i < |cs| - 1 ensures Absorbed(ApplyAll(s, owner, cs).rows, owner, cs[i]) {
        assert front[i] == cs[i];
      }
    }
  }

  /** A favourites section is absorbed by any later state that still holds the rows it left. */
  lemma FavouriteSectionIdempotent(st: Store, owner: Uuid, r: SyncRequest, later: Store)
    requires later.favourites == PushFavourites(st, owner, FavouriteChanges(r)).favourites
    ensures PushFavourites(later, owner, FavouriteChanges(r)) == later
  {
    BatchIsAbsorbed(Stamped(st.favourites, st.revision), owner, FavouriteChanges(r));
    AbsorbedBatchIsNoOp(Stamped(later.favourites, later.revision), owner, FavouriteChanges(r));
  }

  lemma HistorySectionIdempotent(st: Store, owner: Uuid, r: SyncRequest, now: Instant)
    ensures var st1 := PushHistory(st, owner, HistoryChanges(r), now);
            PushHistory(st1, owner, HistoryChanges(r), now) == st1
  {
    var cs := HistoryChanges(r);
    var s := Stamped(st.history, st.revision);
    var t := ApplyAll(s, owner, cs);
    var u := ExpireOwner(t, owner, now);
    BatchIsAbsorbed(s, owner, cs);
    ExpireOwnerExact(t, owner, now);
    forall i | 0 <= i < |cs| ensures Absorbed(u.rows, owner, cs[i]) {
      assert Absorbed(t.rows, owner, cs[i]);
    }
    AbsorbedBatchIsNoOp(u, owner, cs);
    assert ExpiredIds(u.rows, owner, now - HISTORY_RETENTION) == {};
  }

  /**
    Resending a request at the same clock changes no row, allocates no revision and returns the same
    outcome, whatever the store held and whether the first attempt was accepted or rejected.
   */
  lemma ReplayIsIdempotent(st: Store, owner: Uuid, r: SyncRequest, now: Instant)
    ensures var first := Synchronized(st, owner, r, now);
            Synchronized(first.0, owner, r, now) == first
  {
    var st1 := PushFavourites(st, owner, FavouriteChanges(r));
    var st2 := PushHistory(st1, owner, HistoryChanges(r), now);
    FavouriteSectionIdempotent(st, owner, r, st1);
    FavouriteSectionIdempotent(st, owner, r, st2);
    HistorySectionIdempotent(st1, owner, r, now);
  }
}
