/** The resolver's answers told from the intent, the context and what devices declare, without its own helpers. */
module IntentRules {
  import opened Common
  import opened DeviceModel
  import opened DeviceRules
  import opened IntentResolver
  import opened ResolverAgreement

  // ---- Gates ---------------------------------------------------------------------------------------------------

  /** The first member of a selector that is empty or too long. */
  function SelectorFault(target: Option<IntentTarget>): Option<string> {
    if target == None then None
    else if target.value.surface != None && !DeviceRules.Fits(target.value.surface.value, 1, 128) then Some("surface_id")
    else if target.value.area != None && !DeviceRules.Fits(target.value.area.value, 1, 64) then Some("area_id")
    else None
  }

  /** The field an invalid intent is refused for. */
  function IntentFault(intent: UserIntent): Option<string> {
    match intent
    case PlayRadio(station, target) => if DeviceRules.Fits(station, 1, 128) then SelectorFault(target) else Some("station_id")
    case ShowSensors(target) => SelectorFault(target)
    case QuerySensor(None, target) => SelectorFault(target)
    case QuerySensor(Some(sensor), target) => if DeviceRules.Fits(sensor, 1, 128) then SelectorFault(target) else Some("entity_id")
    case Media(ChangeVolumeBy(delta), target) => if delta == 0 then Some("delta") else SelectorFault(target)
    case Media(_, target) => SelectorFault(target)
    case ShowNowPlaying(target) => SelectorFault(target)
    case Actuate(action, value, _, entity) =>
      if !DeviceRules.Fits(entity, 1, 128) then Some("entity_id")
      else if action == SetValue then (if value != None && value.value.Finite? then None else Some("value"))
      else (if value == None then None else Some("value"))
  }

  /** The scopes an actor needs. */
  ghost predicate MayAsk(ctx: Context, intent: UserIntent) {
    match intent
    case PlayRadio(_, _) => MediaControl in ctx.scopes
    case Media(_, _) => MediaControl in ctx.scopes
    case ShowSensors(_) => EntityStateRead in ctx.scopes && DisplayControl in ctx.scopes
    case QuerySensor(_, _) => EntityStateRead in ctx.scopes
    case ShowNowPlaying(_) => DisplayControl in ctx.scopes
    case Actuate(_, _, _, _) => ActuatorControl in ctx.scopes
  }

  /** What is refused before any device is looked at. */
  lemma {:induction false} GateIsExact(ctx: Context, devices: seq<DirectoryDevice>, intent: UserIntent)
    ensures IntentFault(intent) != None ==> Resolve(ctx, devices, intent) == Error(InvalidIntent, IntentFault(intent))
    ensures IntentFault(intent) == None && !(ctx.user == ctx.owner && MayAsk(ctx, intent)) ==>
              Resolve(ctx, devices, intent) == Error(Forbidden, None)
  {
  }

  /** An intent that passes the gates. */
  ghost predicate Admitted(ctx: Context, intent: UserIntent) {
    IntentFault(intent) == None && ctx.user == ctx.owner && MayAsk(ctx, intent)
  }

  // ---- Candidates ----------------------------------------------------------------------------------------------

  ghost predicate HasStation(m: Manifest) {
    exists i :: 0 <= i < |m.capabilities| && m.capabilities[i].StationCapability?
  }

  ghost predicate HasAction(m: Manifest, action: string) {
    exists i :: 0 <= i < |m.capabilities| && m.capabilities[i].PlaybackCapability? && action in m.capabilities[i].actions
  }

  ghost predicate HasVolume(m: Manifest) {
    exists i :: 0 <= i < |m.capabilities| && m.capabilities[i].VolumeCapability?
  }

  ghost predicate HasMute(m: Manifest) {
    exists i :: 0 <= i < |m.capabilities| && m.capabilities[i].VolumeCapability? && m.capabilities[i].mute
  }

  ghost predicate HasView(m: Manifest, view: ViewKind) {
    exists i :: 0 <= i < |m.capabilities| && m.capabilities[i].DisplayCapability? && view in m.capabilities[i].views
  }

  ghost predicate HasDrive(m: Manifest, action: ActuatorAction) {
    exists i :: 0 <= i < |m.capabilities| && m.capabilities[i].ActuatorCapability? && action in m.capabilities[i].commands
  }

  lemma DeclaredAt(m: Manifest, test: Capability -> bool)
    ensures Declares(m, test) <==> exists i :: 0 <= i < |m.capabilities| && test(m.capabilities[i])
  {
  }

  ghost predicate ReadsSensor(e: Entity) {
    e.domain == SensorDomain && e.readable
  }

  ghost predicate HasReadableSensor(m: Manifest) {
    exists i :: 0 <= i < |m.entities| && ReadsSensor(m.entities[i])
  }

  /** What each intent asks of a device. */
  ghost predicate Serves(intent: UserIntent, d: DirectoryDevice)
    requires Commands(intent)
  {
    d.online &&
    match intent
    case PlayRadio(_, _) => Player in d.manifest.roles && HasStation(d.manifest)
    case ShowNowPlaying(_) =>
      && Player in d.manifest.roles && DisplaySurface in d.manifest.roles
      && HasView(d.manifest, NowPlayingView)
    case ShowSensors(_) =>
      && DisplaySurface in d.manifest.roles && HasReadableSensor(d.manifest)
      && HasView(d.manifest, SensorGridView)
    case Media(SetMuteTo(_), _) => Player in d.manifest.roles && HasMute(d.manifest)
    case Media(SetVolumeTo(_), _) => Player in d.manifest.roles && HasVolume(d.manifest)
    case Media(ChangeVolumeBy(_), _) => Player in d.manifest.roles && HasVolume(d.manifest)
    case Media(DoPlay, _) => Player in d.manifest.roles && HasAction(d.manifest, "play")
    case Media(DoPause, _) => Player in d.manifest.roles && HasAction(d.manifest, "pause")
    case Media(DoStop, _) => Player in d.manifest.roles && HasAction(d.manifest, "stop")
    case Media(DoNext, _) => Player in d.manifest.roles && HasAction(d.manifest, "next")
    case Media(DoPrevious, _) => Player in d.manifest.roles && HasAction(d.manifest, "previous")
  }

  lemma SensorsAreFiltered(m: Manifest)
    ensures |Filter(m.entities, ReadableSensor)| > 0 <==> HasReadableSensor(m)
  {
    var kept := Filter(m.entities, ReadableSensor);
    if |kept| > 0 {
      FilterMembers(m.entities, ReadableSensor, kept[0]);
      assert kept[0] in kept;
      var i :| 0 <= i < |m.entities| && m.entities[i] == kept[0];
      assert ReadsSensor(m.entities[i]);
    }
    if HasReadableSensor(m) {
      var i :| 0 <= i < |m.entities| && ReadsSensor(m.entities[i]);
      FilterMembers(m.entities, ReadableSensor, m.entities[i]);
      assert m.entities[i] in kept;
    }
  }

  lemma MediaServes(action: MediaAction, target: Option<IntentTarget>, d: DirectoryDevice)
    ensures Suits(Media(action, target), d) <==> Serves(Media(action, target), d)
  {
    match MediaBody(action)
    case Playback(name) => DeclaredAt(d.manifest, c => PlaysAction(c, name));
    case Volume(command) => DeclaredAt(d.manifest, c => TakesVolume(c, command));
    case _ =>
  }

  /** The resolver's compatibility tests come to this. */
  lemma {:induction false} SuitsIsExact(intent: UserIntent, d: DirectoryDevice)
    requires Commands(intent)
    ensures Suits(intent, d) <==> Serves(intent, d)
  {
    match intent
    case Media(action, target) => MediaServes(action, target, d);
    case ShowSensors(_) =>
      SensorsAreFiltered(d.manifest);
      DeclaredAt(d.manifest, (c: Capability) => c.DisplayCapability? && SensorGridView in c.views);
    case ShowNowPlaying(_) => DeclaredAt(d.manifest, (c: Capability) => c.DisplayCapability? && NowPlayingView in c.views);
    case PlayRadio(_, _) => DeclaredAt(d.manifest, (c: Capability) => c.StationCapability?);
  }

  /** The first canonical area with the identifier lists the device. */
  ghost predicate ListedIn(areas: seq<CanonicalArea>, area: string, device: DeviceId) {
    exists i :: 0 <= i < |areas| && areas[i].id == area && device in areas[i].devices && forall j :: 0 <= j < i ==> areas[j].id != area
  }

  ghost predicate Known(areas: seq<CanonicalArea>, area: string) {
    exists i :: 0 <= i < |areas| && areas[i].id == area
  }

  lemma {:induction false} AreaIsFirst(areas: seq<CanonicalArea>, area: string, device: DeviceId)
    ensures AreaDevices(areas, area).Some? <==> Known(areas, area)
    ensures AreaDevices(areas, area).Some? ==> (device in AreaDevices(areas, area).value <==> ListedIn(areas, area, device))
  {
    if areas != [] {
      var rest := areas[1..];
      assert forall i :: 0 < i < |areas| ==> areas[i] == rest[i - 1];
      if areas[0].id != area {
        AreaIsFirst(rest, area, device);
        if ListedIn(rest, area, device) {
          var i :| 0 <= i < |rest| && rest[i].id == area && device in rest[i].devices && forall j :: 0 <= j < i ==> rest[j].id != area;
          forall j | 0 <= j < i + 1 ensures areas[j].id != area {
            assert j > 0 ==> areas[j] == rest[j - 1];
          }
          assert areas[i + 1] == rest[i];
        }
        if ListedIn(areas, area, device) {
          var i :| 0 <= i < |areas| && areas[i].id == area && device in areas[i].devices && forall j :: 0 <= j < i ==> areas[j].id != area;
          assert rest[i - 1] == areas[i];
          forall j | 0 <= j < i - 1 ensures rest[j].id != area {
            assert areas[j + 1] == rest[j];
          }
        }
        if Known(areas, area) {
          var i :| 0 <= i < |areas| && areas[i].id == area;
          assert rest[i - 1] == areas[i];
        }
        if Known(rest, area) {
          var i :| 0 <= i < |rest| && rest[i].id == area;
          assert areas[i + 1] == rest[i];
        }
      }
    }
  }

  /** The device context of the request. */
  ghost predicate InContext(ctx: Context, device: DeviceId) {
    ctx.current != None && ctx.current.value.device == Some(device)
  }

  ghost predicate NoContext(ctx: Context) {
    ctx.current == None || ctx.current.value.device == None
  }

  /** The device is one the selectors mean: a device id before a surface, a surface before the context. */
  ghost predicate Meant(ctx: Context, target: IntentTarget, d: DirectoryDevice) {
    && (target.area != None ==> ListedIn(ctx.areas, target.area.value, d.id))
    && (if target.device != None then d.id == target.device.value
        else if target.surface != None then exists i :: 0 <= i < |d.manifest.surfaces| && d.manifest.surfaces[i].id == target.surface.value
        else NoContext(ctx) || InContext(ctx, d.id))
  }

  lemma {:induction false} FitsIsMeant(ctx: Context, target: IntentTarget, suits: DirectoryDevice -> bool, d: DirectoryDevice)
    requires target.area != None ==> Known(ctx.areas, target.area.value)
    ensures ResolverAgreement.Fits(ctx, target, suits, d) <==> suits(d) && Meant(ctx, target, d)
  {
    if target.area != None {
      AreaIsFirst(ctx.areas, target.area.value, d.id);
    }
  }

  // ---- Failed selections -----------------------------------------------------------------------------------------

  /** The first device with the identifier is offline. */
  ghost predicate OfflineById(devices: seq<DirectoryDevice>, id: DeviceId) {
    exists i :: 0 <= i < |devices| && devices[i].id == id && !devices[i].online && forall j :: 0 <= j < i ==> devices[j].id != id
  }

  lemma {:induction false} AbsenceIsExact(devices: seq<DirectoryDevice>, id: DeviceId)
    ensures AbsentCode(devices, id) == if OfflineById(devices, id) then TargetOffline else CapabilityNotSupported
  {
    if devices != [] && devices[0].id != id {
      var rest := devices[1..];
      AbsenceIsExact(rest, id);
      assert forall i :: 0 < i < |devices| ==> devices[i] == rest[i - 1];
      if OfflineById(rest, id) {
        var i :| 0 <= i < |rest| && rest[i].id == id && !rest[i].online && forall j :: 0 <= j < i ==> rest[j].id != id;
        forall j | 0 <= j < i + 1 ensures devices[j].id != id {
          assert j > 0 ==> devices[j] == rest[j - 1];
        }
        assert devices[i + 1] == rest[i];
      }
      if OfflineById(devices, id) {
        var i :| 0 <= i < |devices| && devices[i].id == id && !devices[i].online && forall j :: 0 <= j < i ==> devices[j].id != id;
        assert rest[i - 1] == devices[i];
        forall j | 0 <= j < i - 1 ensures rest[j].id != id {
          assert devices[j + 1] == rest[j];
        }
      }
    }
  }

  /** Nothing fits: the answer depends on how the device was meant. */
  lemma {:induction false} NothingFits(ctx: Context, devices: seq<DirectoryDevice>, target: IntentTarget, suits: DirectoryDevice -> bool)
    requires target.area != None ==> Known(ctx.areas, target.area.value)
    requires forall d :: d in devices ==> !(suits(d) && Meant(ctx, target, d))
    ensures Choose(ctx, devices, target, suits) == Err(
              if target.device != None then Error(if OfflineById(devices, target.device.value) then TargetOffline else CapabilityNotSupported, None)
              else if target.surface != None || NoContext(ctx) then Clarification(MissingTarget, [], [])
              else Error(if OfflineById(devices, ctx.current.value.device.value) then TargetOffline else CapabilityNotSupported, None))
  {
    var fits := (d: DirectoryDevice) => ResolverAgreement.Fits(ctx, target, suits, d);
    var left := Filter(devices, fits);
    ChooseIsPick(ctx, devices, target, suits);
    if left != [] {
      FilterMembers(devices, fits, left[0]);
      assert left[0] in left;
      FitsIsMeant(ctx, target, suits, left[0]);
    }
    if target.area != None {
      AreaIsFirst(ctx.areas, target.area.value, 0);
    }
    if target.device != None {
      AbsenceIsExact(devices, target.device.value);
    } else if target.surface == None && !NoContext(ctx) {
      AbsenceIsExact(devices, ctx.current.value.device.value);
    }
  }

  /** What is kept is what fits, and two entries that fit are both kept. */
  lemma {:induction false} KeptIsMeant(ctx: Context, devices: seq<DirectoryDevice>, target: IntentTarget, suits: DirectoryDevice -> bool,
                                       i: nat, j: nat)
    requires target.area != None ==> Known(ctx.areas, target.area.value)
    requires i < j < |devices| && suits(devices[i]) && Meant(ctx, target, devices[i]) && suits(devices[j]) && Meant(ctx, target, devices[j])
    ensures var left := Filter(devices, d => ResolverAgreement.Fits(ctx, target, suits, d));
            |left| >= 2 && forall d :: d in left <==> d in devices && suits(d) && Meant(ctx, target, d)
  {
    var fits := (d: DirectoryDevice) => ResolverAgreement.Fits(ctx, target, suits, d);
    FitsIsMeant(ctx, target, suits, devices[i]);
    FitsIsMeant(ctx, target, suits, devices[j]);
    TwoAreKept(devices, fits, i, j);
    forall d ensures d in Filter(devices, fits) <==> d in devices && suits(d) && Meant(ctx, target, d) {
      FilterMembers(devices, fits, d);
      FitsIsMeant(ctx, target, suits, d);
    }
  }

  /** Several fit: the question lists exactly their identifiers, each once. */
  lemma {:induction false} SeveralFit(ctx: Context, devices: seq<DirectoryDevice>, target: IntentTarget, suits: DirectoryDevice -> bool)
    requires target.area != None ==> Known(ctx.areas, target.area.value)
    requires exists i, j :: 0 <= i < j < |devices| && suits(devices[i]) && Meant(ctx, target, devices[i])
                            && suits(devices[j]) && Meant(ctx, target, devices[j])
    ensures var r := Choose(ctx, devices, target, suits);
            && r.Err? && r.error.Clarification? && r.error.code == AmbiguousTarget && r.error.surfaces == []
            && (forall a, b :: 0 <= a < b < |r.error.devices| ==> r.error.devices[a] != r.error.devices[b])
            && (forall id :: id in r.error.devices <==>
                  exists d :: d in devices && d.id == id && suits(d) && Meant(ctx, target, d))
  {
    var fits := (d: DirectoryDevice) => ResolverAgreement.Fits(ctx, target, suits, d);
    var left := Filter(devices, fits);
    var i, j :| 0 <= i < j < |devices| && suits(devices[i]) && Meant(ctx, target, devices[i])
                && suits(devices[j]) && Meant(ctx, target, devices[j]);
    KeptIsMeant(ctx, devices, target, suits, i, j);
    ChooseIsPick(ctx, devices, target, suits);
    if target.area != None {
      AreaIsFirst(ctx.areas, target.area.value, 0);
    }
    FirstOccurrencesIsExact(IdsOf(left));
    IdsAreMembers(left);
  }

  lemma {:induction false} TwoAreKept<T>(xs: seq<T>, p: T -> bool, i: nat, j: nat)
    requires i < j < |xs| && p(xs[i]) && p(xs[j])
    ensures |Filter(xs, p)| >= 2
  {
    if i == 0 {
      OneIsKept(xs[1..], p, j - 1);
    } else {
      TwoAreKept(xs[1..], p, i - 1, j - 1);
    }
  }

  lemma {:induction false} OneIsKept<T>(xs: seq<T>, p: T -> bool, i: nat)
    requires i < |xs| && p(xs[i])
    ensures |Filter(xs, p)| >= 1
  {
    if i > 0 {
      OneIsKept(xs[1..], p, i - 1);
    }
  }

  lemma {:induction false} UnknownAreaIsRefused(ctx: Context, devices: seq<DirectoryDevice>, target: IntentTarget, suits: DirectoryDevice -> bool)
    requires target.area != None && !Known(ctx.areas, target.area.value)
    ensures Choose(ctx, devices, target, suits) == Err(Error(UnsupportedSelector, None))
  {
    AreaIsFirst(ctx.areas, target.area.value, 0);
  }

  /** The answer to an admitted commanding intent is the failure of the selection, or what is planned on the one device. */
  lemma {:induction false} AnswerFollowsSelection(ctx: Context, devices: seq<DirectoryDevice>, intent: UserIntent)
    requires Commands(intent) && Admitted(ctx, intent)
    ensures var target := if intent.target == None then IntentTarget(None, None, None) else intent.target.value;
            var chosen := Choose(ctx, devices, target, d => Suits(intent, d));
            Resolve(ctx, devices, intent) == if chosen.Err? then chosen.error else PlanOn(ctx, intent, chosen.value)
  {
  }

  // ---- Plans -----------------------------------------------------------------------------------------------------

  /** Radio and media: one command to the device, with no subtarget and no deadline, and this body. */
  lemma {:induction false} PlayerPlanIsExact(ctx: Context, intent: UserIntent, d: DirectoryDevice)
    requires intent.PlayRadio? || intent.Media?
    ensures PlanOn(ctx, intent, d) == Plan(None, [DeviceCommand(ctx.commandId, CommandTarget(d.id, None, None), None,
              match intent
              case PlayRadio(station, _) => PlayStation(station)
              case Media(DoPlay, _) => Playback("play")
              case Media(DoPause, _) => Playback("pause")
              case Media(DoStop, _) => Playback("stop")
              case Media(DoNext, _) => Playback("next")
              case Media(DoPrevious, _) => Playback("previous")
              case Media(SetVolumeTo(level), _) => Volume(SetLevel(level))
              case Media(ChangeVolumeBy(delta), _) => Volume(Change(delta))
              case Media(SetMuteTo(muted), _) => Volume(SetMute(muted)))])
  {
  }

  /** The surface asked for: the intent's, or the context's when the context is this device. */
  ghost predicate Asks(ctx: Context, d: DirectoryDevice, target: IntentTarget, surface: string) {
    || target.surface == Some(surface)
    || (target.surface == None && InContext(ctx, d.id) && ctx.current.value.surface == Some(surface))
  }

  ghost predicate Usable(ctx: Context, d: DirectoryDevice, target: IntentTarget, view: ViewKind, s: Surface) {
    s.kind == DisplayKind && view in s.views && forall asked :: Asks(ctx, d, target, asked) ==> s.id == asked
  }

  lemma UsableIsSuits(ctx: Context, d: DirectoryDevice, target: IntentTarget, view: ViewKind, s: Surface)
    ensures SurfaceSuits(s, view, RequestedSurface(ctx, d, target)) <==> Usable(ctx, d, target, view, s)
  {
    var requested := RequestedSurface(ctx, d, target);
    assert forall asked :: Asks(ctx, d, target, asked) <==> requested == Some(asked);
    if requested.Some? {
      assert Asks(ctx, d, target, requested.value);
    }
  }

  /** A surface is selected exactly when it alone is usable. */
  lemma {:induction false} SurfaceSelectionIsExact(ctx: Context, d: DirectoryDevice, target: IntentTarget, view: ViewKind, s: Surface)
    ensures SelectSurface(ctx, d, target, view) == Ok(s) <==>
              && Usable(ctx, d, target, view, s) && multiset(d.manifest.surfaces)[s] == 1
              && forall other :: other in d.manifest.surfaces && Usable(ctx, d, target, view, other) ==> other == s
  {
    var suits := (x: Surface) => SurfaceSuits(x, view, RequestedSurface(ctx, d, target));
    var left := Filter(d.manifest.surfaces, suits);
    FilterCounts(d.manifest.surfaces, suits, s);
    UsableIsSuits(ctx, d, target, view, s);
    forall other ensures other in left <==> other in d.manifest.surfaces && Usable(ctx, d, target, view, other) {
      FilterMembers(d.manifest.surfaces, suits, other);
      UsableIsSuits(ctx, d, target, view, other);
    }
    OnlyElement(left, s);
  }

  lemma {:induction false} SurfaceFailureIsExact(ctx: Context, d: DirectoryDevice, target: IntentTarget, view: ViewKind)
    ensures SelectSurface(ctx, d, target, view) == Err(Error(CapabilityNotSupported, None)) <==>
              forall s :: s in d.manifest.surfaces ==> !Usable(ctx, d, target, view, s)
    ensures var r := SelectSurface(ctx, d, target, view);
            r.Err? && r != Err(Error(CapabilityNotSupported, None)) ==>
              && r.error.Clarification? && r.error.code == AmbiguousSurface && r.error.devices == [d.id]
              && forall id :: id in r.error.surfaces <==>
                   exists s :: s in d.manifest.surfaces && Usable(ctx, d, target, view, s) && s.id == id
  {
    var suits := (x: Surface) => SurfaceSuits(x, view, RequestedSurface(ctx, d, target));
    var left := Filter(d.manifest.surfaces, suits);
    forall other ensures other in left <==> other in d.manifest.surfaces && Usable(ctx, d, target, view, other) {
      FilterMembers(d.manifest.surfaces, suits, other);
      UsableIsSuits(ctx, d, target, view, other);
    }
    if left != [] {
      assert left[0] in left;
    }
    SurfaceIdsAreMembers(left);
  }

  lemma SurfaceIdsAreMembers(surfaces: seq<Surface>)
    ensures forall id :: id in SurfaceIds(surfaces) <==> exists s :: s in surfaces && s.id == id
  {
    forall id | id in SurfaceIds(surfaces) ensures exists s :: s in surfaces && s.id == id {
      var i :| 0 <= i < |SurfaceIds(surfaces)| && SurfaceIds(surfaces)[i] == id;
      assert surfaces[i] in surfaces;
    }
    forall id | exists s :: s in surfaces && s.id == id ensures id in SurfaceIds(surfaces) {
      var s :| s in surfaces && s.id == id;
      var i :| 0 <= i < |surfaces| && surfaces[i] == s;
      assert SurfaceIds(surfaces)[i] == id;
    }
  }

  /** A presentation that is invalid or exceeds what the device declares is not planned; any other is, on the surface. */
  lemma {:induction false} DisplayPlanIsExact(ctx: Context, d: DirectoryDevice, s: Surface, p: Presentation)
    ensures DisplayPlan(ctx, d, s, p) ==
              if ValidatePresentation(p) == Pass && PresentationSupported(d.manifest, p)
              then Plan(Some(p), [DeviceCommand(ctx.commandId, CommandTarget(d.id, None, Some(s.id)), None, Display(p))])
              else Error(CapabilityNotSupported, None)
  {
  }

  /** Now playing: only what a playing device reports, its station standing for the title. */
  lemma {:induction false} NowPlayingIsExact(ctx: Context, intent: UserIntent, d: DirectoryDevice)
    requires intent.ShowNowPlaying?
    ensures var target := if intent.target == None then IntentTarget(None, None, None) else intent.target.value;
            var surface := SelectSurface(ctx, d, target, NowPlayingView);
            PlanOn(ctx, intent, d) ==
              if surface.Err? then surface.error
              else if d.playback != None && d.playback.value.status == "playing" && d.playback.value.station != None
              then DisplayPlan(ctx, d, surface.value, NowPlaying(d.playback.value.station.value, d.playback.value.station.value, None))
              else Error(StateUnavailable, None)
  {
  }

  /** The first state reported for the entity. */
  ghost predicate FirstState(states: seq<EntityState>, entity: string, i: nat) {
    i < |states| && states[i].entity == entity && forall j :: 0 <= j < i ==> states[j].entity != entity
  }

  lemma {:induction false} StateIsFirst(states: seq<EntityState>, entity: string)
    ensures StateFor(states, entity) == None <==> forall i :: 0 <= i < |states| ==> states[i].entity != entity
    ensures forall i: nat :: FirstState(states, entity, i) ==> StateFor(states, entity) == Some(states[i])
  {
    if states != [] && states[0].entity != entity {
      var rest := states[1..];
      StateIsFirst(rest, entity);
      assert forall i :: 0 < i < |states| ==> states[i] == rest[i - 1];
      forall i: nat | FirstState(states, entity, i) ensures StateFor(states, entity) == Some(states[i]) {
        assert rest[i - 1] == states[i];
        assert forall j :: 0 <= j < i - 1 ==> rest[j] == states[j + 1];
        assert FirstState(rest, entity, i - 1);
      }
    }
  }

  /** A card shows what is known: nothing for an unreported or unavailable sensor, otherwise the value and how fresh it is. */
  lemma {:induction false} CardIsExact(e: Entity, state: Option<EntityState>, now: Instant)
    ensures var card := CardFor(e, state, now);
            && card.entity == e.id && card.title == e.title
            && (state == None || state.value.quality == UnavailableQuality ==>
                  card.value == Null && card.quality == UnavailableQuality && card.freshness == UnknownFreshness)
            && (state != None && state.value.quality != UnavailableQuality ==>
                  && card.value == state.value.value && card.quality == state.value.quality
                  && card.freshness == if !state.value.received then UnknownFreshness
                                       else if state.value.staleAfter < now then Stale else Fresh)
            && card.unit == if state != None && state.value.unit != None then state.value.unit else e.unit
  {
  }

  /** The grid: one card for each readable sensor, in the order they are declared. */
  lemma {:induction false} SensorsAreExact(ctx: Context, intent: UserIntent, d: DirectoryDevice)
    requires intent.ShowSensors?
    ensures var target := if intent.target == None then IntentTarget(None, None, None) else intent.target.value;
            var surface := SelectSurface(ctx, d, target, SensorGridView);
            var sensors := Filter(d.manifest.entities, ReadableSensor);
            && (surface.Err? ==> PlanOn(ctx, intent, d) == surface.error)
            && (surface.Ok? ==> exists cards: seq<SensorCard> ::
                  && |cards| == |sensors|
                  && (forall i :: 0 <= i < |cards| ==> cards[i] == CardFor(sensors[i], StateFor(d.entityStates, sensors[i].id), ctx.receivedAt))
                  && PlanOn(ctx, intent, d) == DisplayPlan(ctx, d, surface.value, SensorGrid("Sensors", cards)))
    ensures forall e :: ReadableSensor(e) <==> ReadsSensor(e)
  {
    var sensors := Filter(d.manifest.entities, ReadableSensor);
    var cards := CardsFor(sensors, d.entityStates, ctx.receivedAt);
    assert forall i :: 0 <= i < |cards| ==> cards[i] == CardFor(sensors[i], StateFor(d.entityStates, sensors[i].id), ctx.receivedAt);
  }

  // ---- Actuators and queries -------------------------------------------------------------------------------------

  ghost predicate Beyond(e: Entity, action: ActuatorAction, value: Option<Float>) {
    && action == SetValue && value != None
    && (|| (e.minimum != None && Less(value.value, e.minimum.value))
        || (e.maximum != None && Less(e.maximum.value, value.value)))
  }

  ghost predicate Allows(m: Manifest, e: Entity, action: ActuatorAction) {
    && e.controllable && action in e.allowedCommands && ActuatorRole in m.roles
    && HasDrive(m, action)
    && (e.domain == SwitchDomain || e.domain == LightDomain) && e.deviceClass != "lock" && e.deviceClass != "climate"
  }

  /** The first device with the identifier. */
  ghost predicate FirstDevice(devices: seq<DirectoryDevice>, id: DeviceId, i: nat) {
    i < |devices| && devices[i].id == id && forall j :: 0 <= j < i ==> devices[j].id != id
  }

  lemma {:induction false} DeviceIsFirst(devices: seq<DirectoryDevice>, id: DeviceId)
    ensures FindDevice(devices, id) == None <==> forall i :: 0 <= i < |devices| ==> devices[i].id != id
    ensures forall i: nat :: FirstDevice(devices, id, i) ==> FindDevice(devices, id) == Some(devices[i])
  {
    if devices != [] && devices[0].id != id {
      var rest := devices[1..];
      DeviceIsFirst(rest, id);
      assert forall i :: 0 < i < |devices| ==> devices[i] == rest[i - 1];
      forall i: nat | FirstDevice(devices, id, i) ensures FindDevice(devices, id) == Some(devices[i]) {
        assert rest[i - 1] == devices[i];
        assert forall j :: 0 <= j < i - 1 ==> rest[j] == devices[j + 1];
        assert FirstDevice(rest, id, i - 1);
      }
    }
  }

  lemma {:induction false} ActuatorAnswerIsExact(ctx: Context, devices: seq<DirectoryDevice>, intent: UserIntent)
    requires intent.Actuate? && Admitted(ctx, intent)
    ensures (forall i :: 0 <= i < |devices| ==> devices[i].id != intent.device) ==> Resolve(ctx, devices, intent) == Error(Forbidden, None)
    ensures forall i: nat :: FirstDevice(devices, intent.device, i) ==>
              Resolve(ctx, devices, intent) ==
                if !devices[i].online then Error(TargetOffline, None)
                else match EntityNamed(devices[i].manifest.entities, intent.entity) {
                  case None => Error(CapabilityNotSupported, None)
                  case Some(e) =>
                    if !Allows(devices[i].manifest, e, intent.actuator) then Error(CapabilityNotSupported, None)
                    else if Beyond(e, intent.actuator, intent.value) then Error(InvalidIntent, Some("value"))
                    else Confirmation(CommandTarget(intent.device, Some(intent.entity), None), intent.actuator, intent.value)
                }
  {
    DeviceIsFirst(devices, intent.device);
    var found := FindDevice(devices, intent.device);
    if found.Some? {
      DeclaredAt(found.value.manifest, c => Drives(c, intent.actuator));
    }
  }

  /** A query is answered from the readings of online devices in a known area, and says so when there is not exactly one. */
  lemma {:induction false} QueryAnswerIsExact(ctx: Context, devices: seq<DirectoryDevice>, intent: UserIntent)
    requires intent.QuerySensor? && Admitted(ctx, intent)
    ensures var target := if intent.target == None then IntentTarget(None, None, None) else intent.target.value;
            var readings := QueryReadings(ctx, devices, intent.sensor, target);
            && (readings == [] ==> Resolve(ctx, devices, intent) == Clarification(MissingTarget, [], []))
            && (|readings| > 1 ==>
                  && Resolve(ctx, devices, intent).Clarification? && Resolve(ctx, devices, intent).code == AmbiguousEntity
                  && Resolve(ctx, devices, intent).surfaces == []
                  && (forall id :: id in Resolve(ctx, devices, intent).devices <==> exists x :: x in readings && x.device.id == id))
            && (|readings| == 1 ==>
                  var state := StateFor(readings[0].device.entityStates, readings[0].entity.id);
                  if state == None then Resolve(ctx, devices, intent) == Error(StateUnavailable, None)
                  else
                    var card := CardFor(readings[0].entity, state, ctx.receivedAt);
                    var text := ctx.wording(readings[0].entity, card.value, state.value.unit, card.quality, card.freshness);
                    Resolve(ctx, devices, intent) ==
                      if DeviceRules.Fits(text, 1, 1024) then Plan(Some(Text(text)), []) else Error(CapabilityNotSupported, None))
  {
    var target := if intent.target == None then IntentTarget(None, None, None) else intent.target.value;
    var readings := QueryReadings(ctx, devices, intent.sensor, target);
    ReadingIdsAreMembers(readings);
    FirstOccurrencesIsExact(ReadingIds(readings));
  }

  /** Which readings those are. */
  lemma {:induction false} ReadingsAreExact(ctx: Context, devices: seq<DirectoryDevice>, sensor: Option<string>, target: IntentTarget, x: Reading)
    ensures x in QueryReadings(ctx, devices, sensor, target) <==>
              && x.device in devices && x.device.online && x.entity in x.device.manifest.entities && ReadsSensor(x.entity)
              && (sensor == None || x.entity.id == sensor.value)
              && (target.area != None && Known(ctx.areas, target.area.value) ==> ListedIn(ctx.areas, target.area.value, x.device.id))
  {
    var suits := (d: DirectoryDevice) => QuerySuits(d);
    var near := (d: DirectoryDevice) => InArea(ctx, target, d);
    var candidates := CompatibleDevices(ctx, devices, target, suits);
    FilterMembers(devices, suits, x.device);
    FilterMembers(Filter(devices, suits), near, x.device);
    if target.area != None {
      AreaIsFirst(ctx.areas, target.area.value, x.device.id);
    }
    SensorsAreFiltered(x.device.manifest);
    ReadingMembers(candidates, sensor, x);
    if x.entity in x.device.manifest.entities && ReadsSensor(x.entity) {
      var i :| 0 <= i < |x.device.manifest.entities| && x.device.manifest.entities[i] == x.entity;
      assert HasReadableSensor(x.device.manifest);
    }
  }

  lemma {:induction false} ReadingMembers(devices: seq<DirectoryDevice>, sensor: Option<string>, x: Reading)
    ensures x in Readings(devices, sensor) <==> x.device in devices && x.entity in x.device.manifest.entities && Asked(sensor, x.entity)
  {
    if devices != [] {
      var front := devices[..|devices| - 1];
      var d := devices[|devices| - 1];
      ReadingMembers(front, sensor, x);
      ReadingMembersOf(d, d.manifest.entities, sensor, x);
      assert devices == front + [d];
    }
  }

  lemma {:induction false} ReadingMembersOf(d: DirectoryDevice, entities: seq<Entity>, sensor: Option<string>, x: Reading)
    ensures x in ReadingsAmong(d, entities, sensor) <==> x.device == d && x.entity in entities && Asked(sensor, x.entity)
  {
    if entities != [] {
      var front := entities[..|entities| - 1];
      ReadingMembersOf(d, front, sensor, x);
      assert entities == front + [entities[|entities| - 1]];
    }
  }
}
