/**
  Device manifests and the capability, entity and surface tables that index them. A transaction is one atomic
  call: it works on its own copy of the tables and an early return leaves them untouched.
 */
module ManifestProjection {
  import opened Common

  type Uuid = nat

  datatype Kind = Capability | Entity | Surface

  /** One declared item; `payload` is its canonical JSON. */
  datatype Item = Item(id: string, payload: string)

  datatype Manifest = Manifest(revision: nat, roles: seq<string>, capabilities: seq<Item>, entities: seq<Item>, surfaces: seq<Item>)

  datatype RowKey = RowKey(device: Uuid, kind: Kind, id: string)

  datatype ProjectedRow = ProjectedRow(payload: string, revision: nat, removed: bool)

  type Projection = map<RowKey, ProjectedRow>

  datatype Tables = Tables(manifests: map<Uuid, Manifest>, rows: Projection)

  datatype StoreOutcome = Accepted | Replay | Stale | Conflict | Resync | NotOwned | Invalid

  datatype RevisionOrder = Next | OrderStale | OrderReplay | OrderConflict | Gap

  function CompareRevisions<T(==)>(accepted: nat, current: T, incoming: nat, candidate: T, requiredBase: Option<nat>): RevisionOrder {
    if incoming < accepted then OrderStale
    else if incoming == accepted then (if current == candidate then OrderReplay else OrderConflict)
    else if (requiredBase.Some? && requiredBase.value != accepted) || incoming != accepted + 1 then Gap
    else Next
  }

  /** The refusal for a manifest that is not the next revision, if any. */
  function Refusal(accepted: nat, current: Manifest, incoming: Manifest): Option<StoreOutcome> {
    match CompareRevisions(accepted, current, incoming.revision, incoming, None)
    case Next => None
    case OrderStale => Some(Stale)
    case OrderReplay => Some(Replay)
    case OrderConflict => Some(Conflict)
    case Gap => Some(Resync)
  }

  predicate DistinctIds(items: seq<Item>) {
    forall i, j :: 0 <= i < j < |items| ==> items[i].id != items[j].id
  }

  /**
    Limits and unique identifiers of a manifest. The remaining rules look at one item or at the roles alone and leave no trace in
    the tables; their verdict is the parameter `itemsValid` of a call.
   */
  predicate ValidManifest(m: Manifest) {
    && m.revision != 0 && |m.roles| <= 8 && |m.capabilities| <= 32 && |m.entities| <= 256 && |m.surfaces| <= 16
    && DistinctIds(m.capabilities) && DistinctIds(m.entities) && DistinctIds(m.surfaces)
  }

  function Declared(m: Manifest, kind: Kind): seq<Item> {
    match kind
    case Capability => m.capabilities
    case Entity => m.entities
    case Surface => m.surfaces
  }

  // ---------------------------------------------------------------------------------------------
  // The transaction as a function

  function MarkRemoved(rows: Projection, device: Uuid): Projection {
    map key | key in rows :: if key.device == device then rows[key].(removed := true) else rows[key]
  }

  /** An identifier that was removed may come back only with the payload it had. */
  function ProjectOne(rows: Projection, key: RowKey, payload: string, revision: nat): Option<Projection> {
    if key in rows && rows[key].removed && rows[key].payload != payload then None
    else Some(rows[key := ProjectedRow(payload, revision, false)])
  }

  function ProjectAll(rows: Projection, device: Uuid, kind: Kind, items: seq<Item>, revision: nat): Option<Projection> {
    if items == [] then Some(rows)
    else
      var before := ProjectAll(rows, device, kind, items[..|items| - 1], revision);
      var last := items[|items| - 1];
      if before.None? then None else ProjectOne(before.value, RowKey(device, kind, last.id), last.payload, revision)
  }

  function Project(rows: Projection, device: Uuid, m: Manifest): Option<Projection> {
    var c := ProjectAll(MarkRemoved(rows, device), device, Capability, m.capabilities, m.revision);
    if c.None? then None else
    var e := ProjectAll(c.value, device, Entity, m.entities, m.revision);
    if e.None? then None else
    ProjectAll(e.value, device, Surface, m.surfaces, m.revision)
  }

  function Applied(t: Tables, itemsValid: bool, owned: bool, device: Uuid, m: Manifest): (Tables, StoreOutcome) {
    if !itemsValid || !ValidManifest(m) then (t, Invalid)
    else if !owned then (t, NotOwned)
    else if device in t.manifests && Refusal(t.manifests[device].revision, t.manifests[device], m).Some? then
      (t, Refusal(t.manifests[device].revision, t.manifests[device], m).value)
    else
      var rows := Project(t.rows, device, m);
      if rows.None? then (t, Conflict) else (Tables(t.manifests[device := m], rows.value), Accepted)
  }

  class DeviceControlTables {
    var manifests: map<Uuid, Manifest>
    var rows: Projection

    constructor ()
      ensures State() == Tables(map[], map[])
    {
      manifests, rows := map[], map[];
    }

    function State(): Tables
      reads this
    {
      Tables(manifests, rows)
    }

    method ApplyManifest(itemsValid: bool, owned: bool, device: Uuid, m: Manifest) returns (outcome: StoreOutcome)
      modifies this
      ensures (State(), outcome) == Applied(old(State()), itemsValid, owned, device, m)
    {
      if !itemsValid || !ValidManifest(m) {
        return Invalid;
      }
      if !owned {
        return NotOwned;
      }
      if device in manifests {
        var refusal := Refusal(manifests[device].revision, manifests[device], m);
        if refusal.Some? {
          return refusal.value;
        }
      }
      var scratch := MarkRemoved(rows, device);
      var ok;
      scratch, ok := ProjectItems(scratch, device, Capability, m.capabilities, m.revision);
      if !ok { return Conflict; }
      scratch, ok := ProjectItems(scratch, device, Entity, m.entities, m.revision);
      if !ok { return Conflict; }
      scratch, ok := ProjectItems(scratch, device, Surface, m.surfaces, m.revision);
      if !ok { return Conflict; }
      rows := scratch;
      manifests := manifests[device := m];
      outcome := Accepted;
    }
  }

  method ProjectItems(start: Projection, device: Uuid, kind: Kind, items: seq<Item>, revision: nat) returns (rows: Projection, ok: bool)
    ensures ProjectAll(start, device, kind, items, revision) == if ok then Some(rows) else None
  {
    rows := start;
    for i := 0 to |items|
      invariant ProjectAll(start, device, kind, items[..i], revision) == Some(rows)
    {
      assert items[..i + 1][..i] == items[..i];
      var key := RowKey(device, kind, items[i].id);
      if key in rows && rows[key].removed && rows[key].payload != items[i].payload {
        RejectionIsFinal(start, device, kind, items, revision, i + 1);
        return rows, false;
      }
      rows := rows[key := ProjectedRow(items[i].payload, revision, false)];
    }
    assert items[..|items|] == items;
    ok := true;
  }

  lemma {:induction false} RejectionIsFinal(start: Projection, device: Uuid, kind: Kind, items: seq<Item>, revision: nat, i: nat)
    requires i <= |items| && ProjectAll(start, device, kind, items[..i], revision).None?
    ensures ProjectAll(start, device, kind, items, revision).None?
    decreases |items| - i
  {
    if i == |items| {
      assert items[..i] == items;
    } else {
      assert items[..i + 1][..i] == items[..i];
      RejectionIsFinal(start, device, kind, items, revision, i + 1);
    }
  }

  // ---------------------------------------------------------------------------------------------
  // What the projection of one list does

  function ItemIds(items: seq<Item>): set<string> {
    set i | 0 <= i < |items| :: items[i].id
  }

  /** Every row the items name is live with their payload; every other row is as before. */
  ghost predicate Projected(rows: Projection, after: Projection, device: Uuid, kind: Kind, items: seq<Item>, revision: nat) {
    && (forall i :: 0 <= i < |items| ==>
          RowKey(device, kind, items[i].id) in after
          && after[RowKey(device, kind, items[i].id)] == ProjectedRow(items[i].payload, revision, false))
    && (forall key :: key in after && !(key.device == device && key.kind == kind && key.id in ItemIds(items)) ==>
          key in rows && after[key] == rows[key])
    && (forall key :: key in rows ==> key in after)
  }

  /** No identifier named by the items is stored with another payload. */
  ghost predicate Compatible(rows: Projection, device: Uuid, kind: Kind, items: seq<Item>) {
    forall i :: 0 <= i < |items| && RowKey(device, kind, items[i].id) in rows ==>
      rows[RowKey(device, kind, items[i].id)].payload == items[i].payload
  }

  /** All of the device's rows of this kind are marked removed, as they are when its list is projected. */
  ghost predicate AllRemoved(rows: Projection, device: Uuid, kind: Kind) {
    forall key :: key in rows && key.device == device && key.kind == kind ==> rows[key].removed
  }

  lemma ProjectedGrows(rows: Projection, before: Projection, device: Uuid, kind: Kind, front: seq<Item>, last: Item, revision: nat)
    requires Projected(rows, before, device, kind, front, revision) && last.id !in ItemIds(front)
    ensures Projected(rows, before[RowKey(device, kind, last.id) := ProjectedRow(last.payload, revision, false)],
                      device, kind, front + [last], revision)
  {
    var items := front + [last];
    assert ItemIds(items) == ItemIds(front) + {last.id} by {
      assert forall i :: 0 <= i < |front| ==> items[i] == front[i];
      assert items[|front|] == last;
    }
    forall i | 0 <= i < |front| ensures front[i].id != last.id {
      assert front[i].id in ItemIds(front);
    }
  }

  lemma CompatibleGrows(rows: Projection, device: Uuid, kind: Kind, front: seq<Item>, last: Item)
    ensures Compatible(rows, device, kind, front + [last]) <==>
              && Compatible(rows, device, kind, front)
              && (RowKey(device, kind, last.id) in rows ==> rows[RowKey(device, kind, last.id)].payload == last.payload)
  {
    var items := front + [last];
    assert forall i :: 0 <= i < |front| ==> items[i] == front[i];
    assert items[|front|] == last;
  }

  lemma {:induction false} ProjectAllExact(rows: Projection, device: Uuid, kind: Kind, items: seq<Item>, revision: nat)
    requires DistinctIds(items) && AllRemoved(rows, device, kind)
    ensures ProjectAll(rows, device, kind, items, revision).Some? <==> Compatible(rows, device, kind, items)
    ensures ProjectAll(rows, device, kind, items, revision).Some? ==>
              Projected(rows, ProjectAll(rows, device, kind, items, revision).value, device, kind, items, revision)
  {
    if items != [] {
      var front := items[..|items| - 1];
      var last := items[|items| - 1];
      assert items == front + [last];
      ProjectAllExact(rows, device, kind, front, revision);
      CompatibleGrows(rows, device, kind, front, last);
      var before := ProjectAll(rows, device, kind, front, revision);
      if before.Some? {
        assert last.id !in ItemIds(front);
        ProjectedGrows(rows, before.value, device, kind, front, last, revision);
      }
    }
  }

  // ---------------------------------------------------------------------------------------------
  // What a whole manifest does

  /** No identifier the device ever stored is declared with another payload. */
  ghost predicate KeepsPayloads(rows: Projection, device: Uuid, m: Manifest) {
    && Compatible(rows, device, Capability, m.capabilities)
    && Compatible(rows, device, Entity, m.entities)
    && Compatible(rows, device, Surface, m.surfaces)
  }

  /** The device's live rows are exactly the manifest's items, each stamped with its revision. */
  ghost predicate Indexes(rows: Projection, device: Uuid, m: Manifest) {
    && (forall kind, i :: 0 <= i < |Declared(m, kind)| ==>
          RowKey(device, kind, Declared(m, kind)[i].id) in rows
          && rows[RowKey(device, kind, Declared(m, kind)[i].id)] == ProjectedRow(Declared(m, kind)[i].payload, m.revision, false))
    && (forall key :: key in rows && key.device == device && !rows[key].removed ==> key.id in ItemIds(Declared(m, key.kind)))
  }

  /** Rows are never dropped, never change payload, and other devices' rows are untouched. */
  ghost predicate Preserves(rows: Projection, after: Projection, device: Uuid) {
    && (forall key :: key in rows ==> key in after && after[key].payload == rows[key].payload)
    && (forall key :: key in after && key.device != device ==> key in rows && after[key] == rows[key])
  }

  lemma ProjectExact(rows: Projection, device: Uuid, m: Manifest)
    requires ValidManifest(m)
    ensures Project(rows, device, m).Some? <==> KeepsPayloads(rows, device, m)
    ensures Project(rows, device, m).Some? ==> Indexes(Project(rows, device, m).value, device, m)
    ensures Project(rows, device, m).Some? ==> Preserves(rows, Project(rows, device, m).value, device)
  {
    var r0 := MarkRemoved(rows, device);
    ProjectAllExact(r0, device, Capability, m.capabilities, m.revision);
    MarkingKeepsCompatibility(rows, device, Capability, m.capabilities);
    MarkingKeepsCompatibility(rows, device, Entity, m.entities);
    MarkingKeepsCompatibility(rows, device, Surface, m.surfaces);
    var c := ProjectAll(r0, device, Capability, m.capabilities, m.revision);
    if c.Some? {
      ProjectAllExact(c.value, device, Entity, m.entities, m.revision);
      var e := ProjectAll(c.value, device, Entity, m.entities, m.revision);
      if e.Some? {
        ProjectAllExact(e.value, device, Surface, m.surfaces, m.revision);
        var s := ProjectAll(e.value, device, Surface, m.surfaces, m.revision);
        if s.Some? {
          ThreeListsIndex(rows, r0, c.value, e.value, s.value, device, m);
        }
      }
    }
  }

  lemma MarkingKeepsCompatibility(rows: Projection, device: Uuid, kind: Kind, items: seq<Item>)
    ensures Compatible(MarkRemoved(rows, device), device, kind, items) <==> Compatible(rows, device, kind, items)
    ensures AllRemoved(MarkRemoved(rows, device), device, kind)
  {
  }

  /** The three lists in turn: where each key of the result comes from. */
  lemma RowAfterThreeLists(r0: Projection, c: Projection, e: Projection, s: Projection, device: Uuid, m: Manifest, key: RowKey)
    requires Projected(r0, c, device, Capability, m.capabilities, m.revision)
    requires Projected(c, e, device, Entity, m.entities, m.revision)
    requires Projected(e, s, device, Surface, m.surfaces, m.revision)
    ensures key.device == device && key.id in ItemIds(Declared(m, key.kind)) ==>
              exists i :: 0 <= i < |Declared(m, key.kind)| && Declared(m, key.kind)[i].id == key.id
                          && key in s && s[key] == ProjectedRow(Declared(m, key.kind)[i].payload, m.revision, false)
    ensures !(key.device == device && key.id in ItemIds(Declared(m, key.kind))) ==>
              (key in s <==> key in r0) && (key in s ==> s[key] == r0[key])
  {
    if key.kind != Capability || key.device != device || key.id !in ItemIds(m.capabilities) {
    }
    if key.kind != Entity || key.device != device || key.id !in ItemIds(m.entities) {
    }
    if key.kind != Surface || key.device != device || key.id !in ItemIds(m.surfaces) {
    }
    if key.device == device && key.id in ItemIds(Declared(m, key.kind)) {
      var i :| 0 <= i < |Declared(m, key.kind)| && Declared(m, key.kind)[i].id == key.id;
      assert RowKey(device, key.kind, Declared(m, key.kind)[i].id) == key;
    }
  }

  lemma ThreeListsIndex(rows: Projection, r0: Projection, c: Projection, e: Projection, s: Projection, device: Uuid, m: Manifest)
    requires ValidManifest(m) && r0 == MarkRemoved(rows, device) && KeepsPayloads(rows, device, m)
    requires Projected(r0, c, device, Capability, m.capabilities, m.revision)
    requires Projected(c, e, device, Entity, m.entities, m.revision)
    requires Projected(e, s, device, Surface, m.surfaces, m.revision)
    ensures Indexes(s, device, m) && Preserves(rows, s, device)
  {
    forall kind, i | 0 <= i < |Declared(m, kind)|
      ensures RowKey(device, kind, Declared(m, kind)[i].id) in s
              && s[RowKey(device, kind, Declared(m, kind)[i].id)] == ProjectedRow(Declared(m, kind)[i].payload, m.revision, false)
    {
      RowAfterThreeLists(r0, c, e, s, device, m, RowKey(device, kind, Declared(m, kind)[i].id));
    }
    forall key | key in s && key.device == device && !s[key].removed ensures key.id in ItemIds(Declared(m, key.kind)) {
      RowAfterThreeLists(r0, c, e, s, device, m, key);
    }
    forall key | key in rows ensures key in s && s[key].payload == rows[key].payload {
      RowAfterThreeLists(r0, c, e, s, device, m, key);
      assert Compatible(rows, device, key.kind, Declared(m, key.kind));
    }
    forall key | key in s && key.device != device ensures key in rows && s[key] == rows[key] {
      RowAfterThreeLists(r0, c, e, s, device, m, key);
    }
  }

  // ---------------------------------------------------------------------------------------------
  // Whole runs

  datatype Call = Call(itemsValid: bool, owned: bool, device: Uuid, manifest: Manifest)

  function Run(calls: seq<Call>): Tables {
    if calls == [] then Tables(map[], map[])
    else
      var last := calls[|calls| - 1];
      Applied(Run(calls[..|calls| - 1]), last.itemsValid, last.owned, last.device, last.manifest).0
  }

  /** The tables agree with the manifests they index, and a device without a manifest has no rows. */
  ghost predicate Agreement(t: Tables) {
    && (forall device :: device in t.manifests ==> ValidManifest(t.manifests[device]) && Indexes(t.rows, device, t.manifests[device]))
    && (forall key :: key in t.rows ==> key.device in t.manifests)
  }

  /**
    One call decides exactly: it is accepted if and only if the manifest is valid, owned, the first or the very next
    revision, and gives no identifier the device ever stored another payload; and a call that is not accepted changes nothing.
   */
  lemma AcceptanceIsExact(t: Tables, itemsValid: bool, owned: bool, device: Uuid, m: Manifest)
    ensures Applied(t, itemsValid, owned, device, m).1 == Accepted <==>
              && itemsValid && ValidManifest(m) && owned
              && (device in t.manifests ==> m.revision == t.manifests[device].revision + 1)
              && KeepsPayloads(t.rows, device, m)
    ensures Applied(t, itemsValid, owned, device, m).1 != Accepted ==> Applied(t, itemsValid, owned, device, m).0 == t
    ensures Applied(t, itemsValid, owned, device, m).1 == Accepted ==> Applied(t, itemsValid, owned, device, m).0.manifests == t.manifests[device := m]
  {
    if ValidManifest(m) {
      ProjectExact(t.rows, device, m);
    }
  }

  /** No call drops a row or changes a payload: an identifier once stored keeps its payload for the device's life. */
  lemma PayloadsArePermanent(t: Tables, itemsValid: bool, owned: bool, device: Uuid, m: Manifest)
    ensures Preserves(t.rows, Applied(t, itemsValid, owned, device, m).0.rows, device)
  {
    if ValidManifest(m) {
      ProjectExact(t.rows, device, m);
    }
  }

  lemma CallKeepsAgreement(t: Tables, itemsValid: bool, owned: bool, device: Uuid, m: Manifest)
    requires Agreement(t)
    ensures Agreement(Applied(t, itemsValid, owned, device, m).0)
  {
    AcceptanceIsExact(t, itemsValid, owned, device, m);
    if Applied(t, itemsValid, owned, device, m).1 == Accepted {
      ProjectExact(t.rows, device, m);
      var t' := Applied(t, itemsValid, owned, device, m).0;
      forall d | d in t'.manifests && d != device ensures Indexes(t'.rows, d, t'.manifests[d]) {
        assert Indexes(t.rows, d, t.manifests[d]);
      }
    }
  }

  /** After any sequence of calls the live rows of every device are exactly the items of its stored manifest. */
  lemma {:induction false} ProjectionAgrees(calls: seq<Call>)
    ensures Agreement(Run(calls))
  {
    if calls != [] {
      var last := calls[|calls| - 1];
      ProjectionAgrees(calls[..|calls| - 1]);
      CallKeepsAgreement(Run(calls[..|calls| - 1]), last.itemsValid, last.owned, last.device, last.manifest);
    }
  }

  // ---------------------------------------------------------------------------------------------
  // Every answer

  /** The limits a manifest must keep, and no identifier twice in one list. */
  ghost predicate WithinLimits(m: Manifest) {
    && m.revision > 0 && |m.roles| <= 8 && |m.capabilities| <= 32 && |m.entities| <= 256 && |m.surfaces| <= 16
    && (forall i, j :: 0 <= i < j < |m.capabilities| ==> m.capabilities[i].id != m.capabilities[j].id)
    && (forall i, j :: 0 <= i < j < |m.entities| ==> m.entities[i].id != m.entities[j].id)
    && (forall i, j :: 0 <= i < j < |m.surfaces| ==> m.surfaces[i].id != m.surfaces[j].id)
  }

  ghost predicate SamePayload(rows: Projection, device: Uuid, kind: Kind, item: Item) {
    RowKey(device, kind, item.id) in rows ==> rows[RowKey(device, kind, item.id)].payload == item.payload
  }

  /** Some declared identifier is stored for the device with another payload. */
  ghost predicate ChangesPayload(rows: Projection, device: Uuid, m: Manifest) {
    || (exists i :: 0 <= i < |m.capabilities| && !SamePayload(rows, device, Capability, m.capabilities[i]))
    || (exists i :: 0 <= i < |m.entities| && !SamePayload(rows, device, Entity, m.entities[i]))
    || (exists i :: 0 <= i < |m.surfaces| && !SamePayload(rows, device, Surface, m.surfaces[i]))
  }

  lemma ListChanges(rows: Projection, device: Uuid, kind: Kind, items: seq<Item>)
    ensures Compatible(rows, device, kind, items) <==> forall i :: 0 <= i < |items| ==> SamePayload(rows, device, kind, items[i])
  {
  }

  /** The two refusals that do not look at the stored manifest. */
  lemma {:induction false} RefusedOutright(t: Tables, itemsValid: bool, owned: bool, device: Uuid, m: Manifest)
    ensures var outcome := Applied(t, itemsValid, owned, device, m).1;
            && (outcome == Invalid <==> !(itemsValid && WithinLimits(m)))
            && (outcome == NotOwned <==> itemsValid && WithinLimits(m) && !owned)
  {
    assert ValidManifest(m) <==> WithinLimits(m);
  }

  /** The answer to a valid manifest of an owned device that has one stored. */
  lemma {:induction false} SuccessorAnswerIsExact(t: Tables, device: Uuid, m: Manifest)
    requires WithinLimits(m) && device in t.manifests
    ensures var outcome := Applied(t, true, true, device, m).1; var stored := t.manifests[device];
            && (outcome == Stale <==> m.revision < stored.revision)
            && (outcome == Replay <==> m == stored)
            && (outcome == Resync <==> m.revision > stored.revision + 1)
            && (outcome == Conflict <==>
                  (m.revision == stored.revision && m != stored)
                  || (m.revision == stored.revision + 1 && ChangesPayload(t.rows, device, m)))
            && (outcome == Accepted <==> m.revision == stored.revision + 1 && !ChangesPayload(t.rows, device, m))
  {
    assert ValidManifest(m);
    ProjectExact(t.rows, device, m);
  }

  /** The answer to the first valid manifest of an owned device. */
  lemma {:induction false} FirstAnswerIsExact(t: Tables, device: Uuid, m: Manifest)
    requires WithinLimits(m) && device !in t.manifests
    ensures Applied(t, true, true, device, m).1 == if ChangesPayload(t.rows, device, m) then Conflict else Accepted
  {
    assert ValidManifest(m);
    ProjectExact(t.rows, device, m);
  }

  /** The order of two revisions, with or without a base that the incoming one must name. */
  lemma {:induction false} RevisionOrderIsExact<T>(accepted: nat, current: T, incoming: nat, candidate: T, requiredBase: Option<nat>)
    ensures var order := CompareRevisions(accepted, current, incoming, candidate, requiredBase);
            && (order == OrderStale <==> incoming < accepted)
            && (order == OrderReplay <==> incoming == accepted && candidate == current)
            && (order == OrderConflict <==> incoming == accepted && candidate != current)
            && (order == Next <==> incoming == accepted + 1 && (requiredBase == None || requiredBase == Some(accepted)))
            && (order == Gap <==> incoming > accepted && !(incoming == accepted + 1 && (requiredBase == None || requiredBase == Some(accepted))))
  {
  }
}
