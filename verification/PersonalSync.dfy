/**
  Last-writer-wins merge rules of the personal-data store: one revision counter shared by two
  collections, tombstones, history expiry and the retention sweep.
  Favourites and history differ only in their content, so rows are generic in it.
 */
module PersonalSync {
  import opened Common

  type Uuid = nat
  /** Nanoseconds since an epoch. */
  type Instant = int

  const DAY: int := 86_400_000_000_000
  const HISTORY_RETENTION: int := 90 * DAY
  const TOMBSTONE_RETENTION: int := 90 * DAY
  const MAX_FAVOURITE_RECORDS: nat := 500
  const MAX_HISTORY_RECORDS: nat := 500

  datatype Key = Key(owner: Uuid, id: Uuid)

  datatype Row<C> = Row(content: C, updatedAt: Instant, deletedAt: Option<Instant>, revision: nat)

  datatype Favourite = Favourite(stationId: Option<string>, addedAt: Instant)

  datatype History = History(stationId: Option<string>, startedAt: Instant, lastPlayedAt: Instant,
                             endedAt: Option<Instant>, playDurationMs: Option<nat>, metadata: Option<string>)

  /** One pushed change. A deletion of a never-synced record stores the `stub` content. */
  datatype Change<C> =
    | Upsert(id: Uuid, at: Instant, content: C)
    | Delete(id: Uuid, at: Instant, stub: C)

  type Rows<C> = map<Key, Row<C>>

  /** A collection together with the shared revision counter. */
  datatype Stamped<C> = Stamped(rows: Rows<C>, revision: nat)

  predicate Live<C>(row: Row<C>) {
    row.deletedAt.None?
  }

  /** An incoming change wins only over a strictly older stored row. */
  predicate StrictlyNewer(stored: Option<Instant>, incoming: Instant) {
    stored.None? || stored.value < incoming
  }

  function StoredAt<C>(rows: Rows<C>, key: Key): Option<Instant> {
    if key in rows then Some(rows[key].updatedAt) else None
  }

  function Merge<C>(s: Stamped<C>, key: Key, at: Instant, content: C): Stamped<C> {
    if !StrictlyNewer(StoredAt(s.rows, key), at) then s
    else Stamped(s.rows[key := Row(content, at, None, s.revision + 1)], s.revision + 1)
  }

  function Tombstone<C>(s: Stamped<C>, key: Key, at: Instant, stub: C): Stamped<C> {
    if key in s.rows then
      var row := s.rows[key];
      if Live(row) && StrictlyNewer(Some(row.updatedAt), at) then
        Stamped(s.rows[key := row.(deletedAt := Some(at), updatedAt := at, revision := s.revision + 1)],
                s.revision + 1)
      else s
    else Stamped(s.rows[key := Row(stub, at, Some(at), s.revision + 1)], s.revision + 1)
  }

  function Apply<C>(s: Stamped<C>, owner: Uuid, c: Change<C>): Stamped<C> {
    match c
    case Upsert(id, at, content) => Merge(s, Key(owner, id), at, content)
    case Delete(id, at, stub) => Tombstone(s, Key(owner, id), at, stub)
  }

  function ApplyAll<C>(s: Stamped<C>, owner: Uuid, cs: seq<Change<C>>): Stamped<C> {
    if cs == [] then s
    else Apply(ApplyAll(s, owner, cs[..|cs| - 1]), owner, cs[|cs| - 1])
  }

  /** Live history rows of `owner` that started before the cutoff. */
  function ExpiredIds(rows: Rows<History>, owner: Uuid, cutoff: Instant): set<Uuid> {
    set key | key in rows && key.owner == owner && Live(rows[key]) && rows[key].content.startedAt < cutoff :: key.id
  }

  /** An expired row keeps `updatedAt` and is tombstoned at that instant, not at the sweep's. */
  function ExpireRow(s: Stamped<History>, key: Key): Stamped<History> {
    if key in s.rows then
      var row := s.rows[key];
      Stamped(s.rows[key := row.(deletedAt := Some(row.updatedAt), revision := s.revision + 1)], s.revision + 1)
    else s
  }

  function ExpireRows(s: Stamped<History>, owner: Uuid, ids: seq<Uuid>): Stamped<History> {
    if ids == [] then s
    else ExpireRow(ExpireRows(s, owner, ids[..|ids| - 1]), Key(owner, ids[|ids| - 1]))
  }

  function ExpireOwner(s: Stamped<History>, owner: Uuid, now: Instant): Stamped<History> {
    ExpireRows(s, owner, Ascending(ExpiredIds(s.rows, owner, now - HISTORY_RETENTION)))
  }

  function Owners<C>(rows: Rows<C>): set<Uuid> {
    set key | key in rows :: key.owner
  }

  function ExpireOwners(s: Stamped<History>, owners: seq<Uuid>, now: Instant): Stamped<History> {
    if owners == [] then s
    else ExpireOwner(ExpireOwners(s, owners[..|owners| - 1], now), owners[|owners| - 1], now)
  }

  /** The fleet-wide expiry of the sweep: every account, in key order. */
  function ExpireFleet(s: Stamped<History>, now: Instant): Stamped<History> {
    ExpireOwners(s, Ascending(Owners(s.rows)), now)
  }

  /** Drops tombstones older than the cutoff. */
  function Retain<C>(rows: Rows<C>, cutoff: Instant): Rows<C> {
    map key | key in rows && (Live(rows[key]) || rows[key].deletedAt.value >= cutoff) :: rows[key]
  }

  function LiveKeys<C>(rows: Rows<C>, owner: Uuid): set<Key> {
    set key | key in rows && key.owner == owner && Live(rows[key])
  }

  // ---------------------------------------------------------------------------------------------
  // What every change keeps

  /** No row is lost, and every row that changed carries a revision past the old counter. */
  ghost predicate Evolves<C>(s: Stamped<C>, t: Stamped<C>) {
    && s.revision <= t.revision
    && (forall key :: key in s.rows ==> key in t.rows && s.rows[key].updatedAt <= t.rows[key].updatedAt)
    && (forall key :: key in t.rows ==>
          || (key in s.rows && t.rows[key] == s.rows[key])
          || s.revision < t.rows[key].revision <= t.revision)
  }

  /** Revisions are distinct and at most the counter; a tombstone is stamped with its own update instant. */
  ghost predicate WellStamped<C>(s: Stamped<C>) {
    && (forall key :: key in s.rows ==> s.rows[key].revision <= s.revision)
    && (forall key, other :: key in s.rows && other in s.rows && s.rows[key].revision == s.rows[other].revision ==> key == other)
    && (forall key :: key in s.rows && !Live(s.rows[key]) ==> s.rows[key].deletedAt.value == s.rows[key].updatedAt)
  }

  /** Stamping one row with the next revision is the only way a collection changes. */
  lemma RestampEvolves<C>(s: Stamped<C>, key: Key, row: Row<C>)
    requires WellStamped(s)
    requires row.revision == s.revision + 1
    requires key in s.rows ==> s.rows[key].updatedAt <= row.updatedAt
    requires Live(row) || row.deletedAt.value == row.updatedAt
    ensures Evolves(s, Stamped(s.rows[key := row], s.revision + 1))
    ensures WellStamped(Stamped(s.rows[key := row], s.revision + 1))
  {
  }

  lemma {:induction false} ApplyEvolves<C>(s: Stamped<C>, owner: Uuid, c: Change<C>)
    requires WellStamped(s)
    ensures Evolves(s, Apply(s, owner, c)) && WellStamped(Apply(s, owner, c))
  {
    var key := Key(owner, c.id);
    var t := Apply(s, owner, c);
    if t != s {
      RestampEvolves(s, key, t.rows[key]);
    }
  }

  lemma EvolvesTransitive<C>(s: Stamped<C>, t: Stamped<C>, u: Stamped<C>)
    requires Evolves(s, t) && Evolves(t, u)
    ensures Evolves(s, u)
  {
  }

  lemma {:induction false} ApplyAllEvolves<C>(s: Stamped<C>, owner: Uuid, cs: seq<Change<C>>)
    requires WellStamped(s)
    ensures Evolves(s, ApplyAll(s, owner, cs)) && WellStamped(ApplyAll(s, owner, cs))
  {
    if cs != [] {
      var t := ApplyAll(s, owner, cs[..|cs| - 1]);
      ApplyAllEvolves(s, owner, cs[..|cs| - 1]);
      ApplyEvolves(t, owner, cs[|cs| - 1]);
      EvolvesTransitive(s, t, ApplyAll(s, owner, cs));
    }
  }

  lemma {:induction false} ExpireRowsEvolves(s: Stamped<History>, owner: Uuid, ids: seq<Uuid>)
    requires WellStamped(s)
    ensures Evolves(s, ExpireRows(s, owner, ids)) && WellStamped(ExpireRows(s, owner, ids))
  {
    if ids != [] {
      var t := ExpireRows(s, owner, ids[..|ids| - 1]);
      ExpireRowsEvolves(s, owner, ids[..|ids| - 1]);
      var key := Key(owner, ids[|ids| - 1]);
      if key in t.rows {
        RestampEvolves(t, key, ExpireRow(t, key).rows[key]);
        EvolvesTransitive(s, t, ExpireRow(t, key));
      }
    }
  }

  lemma {:induction false} ExpireOwnersEvolves(s: Stamped<History>, owners: seq<Uuid>, now: Instant)
    requires WellStamped(s)
    ensures Evolves(s, ExpireOwners(s, owners, now)) && WellStamped(ExpireOwners(s, owners, now))
  {
    if owners != [] {
      var t := ExpireOwners(s, owners[..|owners| - 1], now);
      ExpireOwnersEvolves(s, owners[..|owners| - 1], now);
      ExpireRowsEvolves(t, owners[|owners| - 1], Ascending(ExpiredIds(t.rows, owners[|owners| - 1], now - HISTORY_RETENTION)));
    }
  }

  // ---------------------------------------------------------------------------------------------
  // What expiry does to each row

  predicate IsExpired(row: Row<History>, cutoff: Instant) {
    Live(row) && row.content.startedAt < cutoff
  }

  /** Only `deletedAt` and the revision change, and the deletion instant is the row's own update instant. */
  ghost predicate Expiry(before: Row<History>, after: Row<History>) {
    after == before.(deletedAt := Some(before.updatedAt), revision := after.revision)
  }

  lemma {:induction false} ExpireRowsExact(s: Stamped<History>, owner: Uuid, ids: seq<Uuid>)
    ensures ExpireRows(s, owner, ids).rows.Keys == s.rows.Keys
    ensures forall key :: key in s.rows && (key.owner != owner || key.id !in ids) ==>
              ExpireRows(s, owner, ids).rows[key] == s.rows[key]
    ensures forall key :: key in s.rows && key.owner == owner && key.id in ids ==>
              Expiry(s.rows[key], ExpireRows(s, owner, ids).rows[key])
  {
    if ids != [] {
      ExpireRowsExact(s, owner, ids[..|ids| - 1]);
      assert ids == ids[..|ids| - 1] + [ids[|ids| - 1]];
    }
  }

  lemma ExpireOwnerExact(s: Stamped<History>, owner: Uuid, now: Instant)
    ensures ExpireOwner(s, owner, now).rows.Keys == s.rows.Keys
    ensures forall key :: key in s.rows ==>
              var after := ExpireOwner(s, owner, now).rows[key];
              if key.owner == owner && IsExpired(s.rows[key], now - HISTORY_RETENTION) then Expiry(s.rows[key], after)
              else after == s.rows[key]
  {
    var ids := Ascending(ExpiredIds(s.rows, owner, now - HISTORY_RETENTION));
    ExpireRowsExact(s, owner, ids);
    forall key | key in s.rows && key.owner == owner
      ensures key.id in ids <==> IsExpired(s.rows[key], now - HISTORY_RETENTION)
    {
      if key.id in ids {
        var other :| other in s.rows && other.owner == owner && IsExpired(s.rows[other], now - HISTORY_RETENTION) && other.id == key.id;
        assert other == key;
      }
    }
  }

  lemma {:induction false} ExpireOwnersExact(s: Stamped<History>, owners: seq<Uuid>, now: Instant)
    requires forall i, j :: 0 <= i < j < |owners| ==> owners[i] < owners[j]
    ensures ExpireOwners(s, owners, now).rows.Keys == s.rows.Keys
    ensures forall key :: key in s.rows ==>
              var after := ExpireOwners(s, owners, now).rows[key];
              if key.owner in owners && IsExpired(s.rows[key], now - HISTORY_RETENTION) then Expiry(s.rows[key], after)
              else after == s.rows[key]
  {
    if owners != [] {
      var last := owners[|owners| - 1];
      ExpireOwnersExact(s, owners[..|owners| - 1], now);
      ExpireOwnerExact(ExpireOwners(s, owners[..|owners| - 1], now), last, now);
      assert owners == owners[..|owners| - 1] + [last];
    }
  }

  /** The fleet sweep tombstones exactly the live history rows past retention, of every account. */
  lemma ExpireFleetExact(s: Stamped<History>, now: Instant)
    ensures ExpireFleet(s, now).rows.Keys == s.rows.Keys
    ensures forall key :: key in s.rows ==>
              var after := ExpireFleet(s, now).rows[key];
              if IsExpired(s.rows[key], now - HISTORY_RETENTION) then Expiry(s.rows[key], after)
              else after == s.rows[key]
  {
    ExpireOwnersExact(s, Ascending(Owners(s.rows)), now);
  }
}
