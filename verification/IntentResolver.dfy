/** Resolution of a typed intent into a plan, a question, a confirmation or an error. */
module IntentResolver {
  import opened Common
  import opened DeviceModel

  const MAX_INTENT_TEXT: nat := 128
  const MAX_AREA_ID: nat := 64

  datatype MediaAction =
    | DoPlay | DoPause | DoStop | DoNext | DoPrevious
    | SetVolumeTo(level: U8) | ChangeVolumeBy(delta: I8) | SetMuteTo(muted: bool)

  datatype IntentTarget = IntentTarget(device: Option<DeviceId>, surface: Option<string>, area: Option<string>)

  datatype UserIntent =
    | PlayRadio(station: string, target: Option<IntentTarget>)
    | ShowSensors(target: Option<IntentTarget>)
    | QuerySensor(sensor: Option<string>, target: Option<IntentTarget>)
    | Media(action: MediaAction, target: Option<IntentTarget>)
    | ShowNowPlaying(target: Option<IntentTarget>)
    | Actuate(actuator: ActuatorAction, value: Option<Float>, device: DeviceId, entity: string)

  datatype EntityState = EntityState(entity: string, value: Json, unit: Option<string>, quality: Quality,
                                     received: bool, staleAfter: Instant)

  datatype PlaybackState = PlaybackState(status: string, station: Option<string>)

  datatype DirectoryDevice = DirectoryDevice(id: DeviceId, manifest: Manifest, online: bool,
                                             playback: Option<PlaybackState>, entityStates: seq<EntityState>)

  datatype CurrentTarget = CurrentTarget(device: Option<DeviceId>, surface: Option<string>)

  datatype CanonicalArea = CanonicalArea(id: string, devices: seq<DeviceId>)

  /** The wording of one sensor reading: label, value, unit, quality and freshness. */
  type Wording = (Entity, Json, Option<string>, Quality, Freshness) -> string

  /** Everything the resolver is given besides the intent and the devices of the directory. */
  datatype Context = Context(user: nat, scopes: seq<Scope>, owner: nat, commandId: nat, receivedAt: Instant,
                             current: Option<CurrentTarget>, areas: seq<CanonicalArea>, wording: Wording)

  datatype ClarificationCode = AmbiguousTarget | AmbiguousEntity | AmbiguousSurface | MissingTarget

  datatype ErrorCode = InvalidIntent | Forbidden | TargetOffline | CapabilityNotSupported | StateUnavailable | UnsupportedSelector

  datatype Resolution =
    | Plan(presentation: Option<Presentation>, commands: seq<DeviceCommand>)
    | Clarification(code: ClarificationCode, devices: seq<DeviceId>, surfaces: seq<string>)
    | Confirmation(target: CommandTarget, action: ActuatorAction, value: Option<Float>)
    | Error(error: ErrorCode, field: Option<string>)

  // ---- Intent validation -------------------------------------------------------------------------------------

  function ValidateSelector(target: Option<IntentTarget>): Check {
    if target.None? then Pass
    else if target.value.surface.Some? && Bounded(target.value.surface.value, 1, MAX_INTENT_TEXT, "surface_id").Fail?
      then Fail("surface_id")
    else if target.value.area.Some? then Bounded(target.value.area.value, 1, MAX_AREA_ID, "area_id")
    else Pass
  }

  function ValidateIntent(intent: UserIntent): Check {
    match intent
    case PlayRadio(station, target) =>
      if Bounded(station, 1, MAX_INTENT_TEXT, "station_id").Fail? then Fail("station_id") else ValidateSelector(target)
    case ShowSensors(target) => ValidateSelector(target)
    case ShowNowPlaying(target) => ValidateSelector(target)
    case QuerySensor(sensor, target) =>
      if sensor.Some? && Bounded(sensor.value, 1, MAX_INTENT_TEXT, "entity_id").Fail? then Fail("entity_id")
      else ValidateSelector(target)
    case Media(action, target) => if action == ChangeVolumeBy(0) then Fail("delta") else ValidateSelector(target)
    case Actuate(action, value, _, entity) =>
      if Bounded(entity, 1, MAX_INTENT_TEXT, "entity_id").Fail? then Fail("entity_id")
      else if action == SetValue then (if value.Some? && value.value.Finite? then Pass else Fail("value"))
      else if value.Some? then Fail("value") else Pass
  }

  function MediaBody(action: MediaAction): CommandBody {
    match action
    case DoPlay => Playback("play")
    case DoPause => Playback("pause")
    case DoStop => Playback("stop")
    case DoNext => Playback("next")
    case DoPrevious => Playback("previous")
    case SetVolumeTo(level) => Volume(SetLevel(level))
    case ChangeVolumeBy(delta) => Volume(Change(delta))
    case SetMuteTo(muted) => Volume(SetMute(muted))
  }

  // ---- Selecting a device ------------------------------------------------------------------------------------

  function Filter<T>(xs: seq<T>, keep: T -> bool): seq<T> {
    if xs == [] then []
    else (if keep(xs[0]) then [xs[0]] else []) + Filter(xs[1..], keep)
  }

  /** The selectors of a request: an absent target selects like one with no member. */
  function Selector(target: Option<IntentTarget>): IntentTarget {
    if target.Some? then target.value else IntentTarget(None, None, None)
  }

  function AreaDevices(areas: seq<CanonicalArea>, id: string): Option<seq<DeviceId>> {
    if areas == [] then None
    else if areas[0].id == id then Some(areas[0].devices)
    else AreaDevices(areas[1..], id)
  }

  function AreaOf(ctx: Context, target: IntentTarget): Option<seq<DeviceId>> {
    if target.area.Some? then AreaDevices(ctx.areas, target.area.value) else None
  }

  predicate InArea(ctx: Context, target: IntentTarget, d: DirectoryDevice) {
    AreaOf(ctx, target).Some? ==> d.id in AreaOf(ctx, target).value
  }

  function CompatibleDevices(ctx: Context, devices: seq<DirectoryDevice>, target: IntentTarget,
                             suits: DirectoryDevice -> bool): seq<DirectoryDevice> {
    Filter(Filter(devices, suits), d => InArea(ctx, target, d))
  }

  function FindDevice(devices: seq<DirectoryDevice>, id: DeviceId): Option<DirectoryDevice> {
    if devices == [] then None
    else if devices[0].id == id then Some(devices[0])
    else FindDevice(devices[1..], id)
  }

  function IdsOf(devices: seq<DirectoryDevice>): seq<DeviceId> {
    seq(|devices|, i requires 0 <= i < |devices| => devices[i].id)
  }

  /** The identifiers in order of first occurrence. */
  function FirstOccurrences(ids: seq<DeviceId>): seq<DeviceId> {
    if ids == [] then []
    else
      var before := FirstOccurrences(ids[..|ids| - 1]);
      if ids[|ids| - 1] in before then before else before + [ids[|ids| - 1]]
  }

  method UniqueDeviceIds(ids: seq<DeviceId>) returns (result: seq<DeviceId>)
    ensures result == FirstOccurrences(ids)
    ensures forall i, j :: 0 <= i < j < |result| ==> result[i] != result[j]
    ensures forall x :: x in result <==> x in ids
  {
    result := [];
    for i := 0 to |ids|
      invariant result == FirstOccurrences(ids[..i])
    {
      assert ids[..i + 1][..i] == ids[..i];
      if ids[i] !in result {
        result := result + [ids[i]];
      }
    }
    assert ids[..|ids|] == ids;
    FirstOccurrencesIsExact(ids);
  }

  lemma {:induction false} FirstOccurrencesIsExact(ids: seq<DeviceId>)
    ensures forall i, j :: 0 <= i < j < |FirstOccurrences(ids)| ==> FirstOccurrences(ids)[i] != FirstOccurrences(ids)[j]
    ensures forall x :: x in FirstOccurrences(ids) <==> x in ids
  {
    if ids != [] {
      FirstOccurrencesIsExact(ids[..|ids| - 1]);
      assert ids == ids[..|ids| - 1] + [ids[|ids| - 1]];
    }
  }

  function ChooseOne(candidates: seq<DirectoryDevice>): Result<DirectoryDevice, Resolution> {
    if |candidates| == 1 then Ok(candidates[0])
    else if candidates == [] then Err(Clarification(MissingTarget, [], []))
    else Err(Clarification(AmbiguousTarget, FirstOccurrences(IdsOf(candidates)), []))
  }

  function AbsentCode(devices: seq<DirectoryDevice>, id: DeviceId): ErrorCode {
    var d := FindDevice(devices, id);
    if d.Some? && !d.value.online then TargetOffline else CapabilityNotSupported
  }

  function ChooseExact(devices: seq<DirectoryDevice>, candidates: seq<DirectoryDevice>, id: DeviceId)
    : Result<DirectoryDevice, Resolution> {
    var found := Filter(candidates, (d: DirectoryDevice) => d.id == id);
    if found == [] then Err(Error(AbsentCode(devices, id), None)) else ChooseOne(found)
  }

  predicate HasSurface(m: Manifest, id: string) {
    exists i :: 0 <= i < |m.surfaces| && m.surfaces[i].id == id
  }

  function CurrentDevice(ctx: Context): Option<DeviceId> {
    if ctx.current.Some? then ctx.current.value.device else None
  }

  function SelectDevice(ctx: Context, devices: seq<DirectoryDevice>, target: IntentTarget, candidates: seq<DirectoryDevice>)
    : Result<DirectoryDevice, Resolution> {
    if target.area.Some? && AreaOf(ctx, target).None? then Err(Error(UnsupportedSelector, None))
    else if target.device.Some? then ChooseExact(devices, candidates, target.device.value)
    else if target.surface.Some? then
      ChooseOne(Filter(candidates, (d: DirectoryDevice) => HasSurface(d.manifest, target.surface.value)))
    else if CurrentDevice(ctx).Some? then ChooseExact(devices, candidates, CurrentDevice(ctx).value)
    else ChooseOne(candidates)
  }

  function Choose(ctx: Context, devices: seq<DirectoryDevice>, target: IntentTarget, suits: DirectoryDevice -> bool)
    : Result<DirectoryDevice, Resolution> {
    SelectDevice(ctx, devices, target, CompatibleDevices(ctx, devices, target, suits))
  }

  // ---- Selecting a surface -----------------------------------------------------------------------------------

  function RequestedSurface(ctx: Context, d: DirectoryDevice, target: IntentTarget): Option<string> {
    if target.surface.Some? then target.surface
    else if ctx.current.Some? && ctx.current.value.device == Some(d.id) then ctx.current.value.surface
    else None
  }

  predicate SurfaceSuits(s: Surface, view: ViewKind, requested: Option<string>) {
    s.kind == DisplayKind && view in s.views && (requested.Some? ==> s.id == requested.value)
  }

  function SurfaceIds(surfaces: seq<Surface>): seq<string> {
    seq(|surfaces|, i requires 0 <= i < |surfaces| => surfaces[i].id)
  }

  function SelectSurface(ctx: Context, d: DirectoryDevice, target: IntentTarget, view: ViewKind): Result<Surface, Resolution> {
    var requested := RequestedSurface(ctx, d, target);
    var candidates := Filter(d.manifest.surfaces, s => SurfaceSuits(s, view, requested));
    if |candidates| == 1 then Ok(candidates[0])
    else if candidates == [] then Err(Error(CapabilityNotSupported, None))
    else Err(Clarification(AmbiguousSurface, [d.id], SurfaceIds(candidates)))
  }

  // ---- Plans -------------------------------------------------------------------------------------------------

  function CommandFor(ctx: Context, d: DirectoryDevice, surface: Option<string>, body: CommandBody): DeviceCommand {
    DeviceCommand(ctx.commandId, CommandTarget(d.id, None, surface), None, body)
  }

  predicate DeclaresRole(m: Manifest, role: Role) {
    role in m.roles
  }

  predicate Declares(m: Manifest, test: Capability -> bool) {
    exists c :: c in m.capabilities && test(c)
  }

  predicate RadioSuits(d: DirectoryDevice) {
    d.online && DeclaresRole(d.manifest, Player) && Declares(d.manifest, (c: Capability) => c.StationCapability?)
  }

  predicate PlaysAction(c: Capability, action: string) {
    match c
    case PlaybackCapability(actions) => action in actions
    case _ => false
  }

  predicate TakesVolume(c: Capability, command: VolumeCommand) {
    match c
    case VolumeCapability(_, mute) =>
      (match command
       case SetMute(_) => mute
       case SetLevel(_) => true
       case Change(_) => true)
    case _ => false
  }

  predicate MediaSupported(m: Manifest, body: CommandBody) {
    DeclaresRole(m, Player) &&
    match body
    case Playback(action) => Declares(m, c => PlaysAction(c, action))
    case Volume(command) => Declares(m, c => TakesVolume(c, command))
    case _ => false
  }

  predicate DisplayCapable(m: Manifest, view: ViewKind) {
    DeclaresRole(m, DisplaySurface) && Declares(m, (c: Capability) => c.DisplayCapability? && view in c.views)
  }

  predicate Presents(c: Capability, p: Presentation) {
    match c
    case DisplayCapability(views, maxItems, maxTextLength) =>
      (match p
       case Text(text) => |text| <= maxTextLength
       case NowPlaying(_, _, _) => NowPlayingView in views
       case SensorGrid(_, items) => SensorGridView in views && |items| <= maxItems)
    case _ => false
  }

  predicate PresentationSupported(m: Manifest, p: Presentation) {
    Declares(m, c => Presents(c, p))
  }

  predicate ReadableSensor(e: Entity) {
    e.domain == SensorDomain && e.readable
  }

  predicate SensorsSuit(d: DirectoryDevice) {
    d.online && |Filter(d.manifest.entities, ReadableSensor)| > 0 && DisplayCapable(d.manifest, SensorGridView)
  }

  predicate NowPlayingSuits(d: DirectoryDevice) {
    d.online && DisplayCapable(d.manifest, NowPlayingView) && DeclaresRole(d.manifest, Player)
  }

  function StateFor(states: seq<EntityState>, id: string): Option<EntityState> {
    if states == [] then None
    else if states[0].entity == id then Some(states[0])
    else StateFor(states[1..], id)
  }

  function FreshnessAt(s: EntityState, now: Instant): Freshness {
    if !s.received then UnknownFreshness else if now > s.staleAfter then Stale else Fresh
  }

  function CardFor(e: Entity, state: Option<EntityState>, now: Instant): SensorCard {
    if state.None? then SensorCard(e.id, e.title, Null, e.unit, UnavailableQuality, UnknownFreshness)
    else
      var s := state.value;
      var unit := if s.unit.Some? then s.unit else e.unit;
      if s.quality == UnavailableQuality
      then SensorCard(e.id, e.title, Null, unit, UnavailableQuality, UnknownFreshness)
      else SensorCard(e.id, e.title, s.value, unit, s.quality, FreshnessAt(s, now))
  }

  function CardsFor(entities: seq<Entity>, states: seq<EntityState>, now: Instant): seq<SensorCard> {
    seq(|entities|, i requires 0 <= i < |entities| => CardFor(entities[i], StateFor(states, entities[i].id), now))
  }

  /** The last gate of both display intents: the presentation must be valid and fit what the device declares. */
  function DisplayPlan(ctx: Context, d: DirectoryDevice, surface: Surface, p: Presentation): Resolution {
    if ValidatePresentation(p).Fail? || !PresentationSupported(d.manifest, p)
    then Error(CapabilityNotSupported, None)
    else Plan(Some(p), [CommandFor(ctx, d, Some(surface.id), Display(p))])
  }

  function SensorsOn(ctx: Context, d: DirectoryDevice, target: IntentTarget): Resolution {
    var surface := SelectSurface(ctx, d, target, SensorGridView);
    if surface.Err? then surface.error
    else
      var cards := CardsFor(Filter(d.manifest.entities, ReadableSensor), d.entityStates, ctx.receivedAt);
      DisplayPlan(ctx, d, surface.value, SensorGrid("Sensors", cards))
  }

  function NowPlayingOn(ctx: Context, d: DirectoryDevice, target: IntentTarget): Resolution {
    var surface := SelectSurface(ctx, d, target, NowPlayingView);
    if surface.Err? then surface.error
    else if d.playback.None? || d.playback.value.station.None? || d.playback.value.status != "playing"
    then Error(StateUnavailable, None)
    else
      var station := d.playback.value.station.value;
      DisplayPlan(ctx, d, surface.value, NowPlaying(station, station, None))
  }

  predicate SafeActuator(e: Entity) {
    (e.domain == SwitchDomain || e.domain == LightDomain) && e.deviceClass != "lock" && e.deviceClass != "climate"
  }

  /** The first entity with the identifier. */
  function EntityNamed(entities: seq<Entity>, id: string): Option<Entity> {
    if entities == [] then None
    else if entities[0].id == id then Some(entities[0])
    else EntityNamed(entities[1..], id)
  }

  predicate Drives(c: Capability, action: ActuatorAction) {
    match c
    case ActuatorCapability(commands) => action in commands
    case _ => false
  }

  predicate ActuatorAllowed(m: Manifest, e: Entity, action: ActuatorAction) {
    e.controllable && action in e.allowedCommands && DeclaresRole(m, ActuatorRole) && Declares(m, c => Drives(c, action))
  }

  /** An absent set point counts as zero. */
  predicate OutsideBounds(e: Entity, value: Option<Float>) {
    var v := match value { case Some(x) => x case None => Finite(0.0) };
    match (e.minimum, e.maximum)
    case (Some(low), Some(high)) => Less(v, low) || Less(high, v)
    case (Some(low), None) => Less(v, low)
    case (None, Some(high)) => Less(high, v)
    case (None, None) => false
  }

  function ActuateOn(d: DirectoryDevice, action: ActuatorAction, value: Option<Float>, entity: string): Resolution {
    if !d.online then Error(TargetOffline, None)
    else
      match EntityNamed(d.manifest.entities, entity)
      case None => Error(CapabilityNotSupported, None)
      case Some(e) =>
        if !ActuatorAllowed(d.manifest, e, action) || !SafeActuator(e) then Error(CapabilityNotSupported, None)
        else if action == SetValue && OutsideBounds(e, value) then Error(InvalidIntent, Some("value"))
        else Confirmation(CommandTarget(d.id, Some(entity), None), action, value)
  }

  // ---- Sensor queries ----------------------------------------------------------------------------------------

  datatype Reading = Reading(device: DirectoryDevice, entity: Entity)

  predicate Asked(sensor: Option<string>, e: Entity) {
    ReadableSensor(e) && (sensor.None? || e.id == sensor.value)
  }

  predicate QuerySuits(d: DirectoryDevice) {
    d.online && |Filter(d.manifest.entities, ReadableSensor)| > 0
  }

  function ReadingsAmong(d: DirectoryDevice, entities: seq<Entity>, sensor: Option<string>): seq<Reading> {
    if entities == [] then []
    else
      ReadingsAmong(d, entities[..|entities| - 1], sensor)
      + (if Asked(sensor, entities[|entities| - 1]) then [Reading(d, entities[|entities| - 1])] else [])
  }

  function Readings(devices: seq<DirectoryDevice>, sensor: Option<string>): seq<Reading> {
    if devices == [] then []
    else
      var d := devices[|devices| - 1];
      Readings(devices[..|devices| - 1], sensor) + ReadingsAmong(d, d.manifest.entities, sensor)
  }

  /** The nested loops that push every matching entity of every candidate device. */
  method CollectReadings(devices: seq<DirectoryDevice>, sensor: Option<string>) returns (readings: seq<Reading>)
    ensures readings == Readings(devices, sensor)
  {
    readings := [];
    for i := 0 to |devices|
      invariant readings == Readings(devices[..i], sensor)
    {
      ghost var before := readings;
      var d := devices[i];
      for j := 0 to |d.manifest.entities|
        invariant readings == before + ReadingsAmong(d, d.manifest.entities[..j], sensor)
      {
        assert d.manifest.entities[..j + 1][..j] == d.manifest.entities[..j];
        if Asked(sensor, d.manifest.entities[j]) {
          readings := readings + [Reading(d, d.manifest.entities[j])];
        }
      }
      assert d.manifest.entities[..|d.manifest.entities|] == d.manifest.entities;
      assert devices[..i + 1][..i] == devices[..i];
    }
    assert devices[..|devices|] == devices;
  }

  function ReadingIds(readings: seq<Reading>): seq<DeviceId> {
    seq(|readings|, i requires 0 <= i < |readings| => readings[i].device.id)
  }

  function AnswerReading(ctx: Context, reading: Reading): Resolution {
    var state := StateFor(reading.device.entityStates, reading.entity.id);
    if state.None? then Error(StateUnavailable, None)
    else
      var card := CardFor(reading.entity, state, ctx.receivedAt);
      var text := Text(ctx.wording(reading.entity, card.value, state.value.unit, card.quality, card.freshness));
      if ValidatePresentation(text).Fail? then Error(CapabilityNotSupported, None) else Plan(Some(text), [])
  }

  /** Of the selectors only a known area narrows the search. */
  function AnswerQuery(ctx: Context, devices: seq<DirectoryDevice>, sensor: Option<string>, target: IntentTarget): Resolution {
    var readings := Readings(CompatibleDevices(ctx, devices, target, d => QuerySuits(d)), sensor);
    if readings == [] then Clarification(MissingTarget, [], [])
    else if |readings| != 1 then Clarification(AmbiguousEntity, FirstOccurrences(ReadingIds(readings)), [])
    else AnswerReading(ctx, readings[0])
  }

  // ---- The resolver ------------------------------------------------------------------------------------------

  /** Intents that end in a command for one selected device. */
  predicate Commands(intent: UserIntent) {
    !intent.Actuate? && !intent.QuerySensor?
  }

  /** What each intent asks of a device before any selector is applied. */
  predicate Suits(intent: UserIntent, d: DirectoryDevice)
    requires Commands(intent)
  {
    match intent
    case PlayRadio(_, _) => RadioSuits(d)
    case ShowSensors(_) => SensorsSuit(d)
    case Media(action, _) => d.online && MediaSupported(d.manifest, MediaBody(action))
    case ShowNowPlaying(_) => NowPlayingSuits(d)
  }

  predicate ScopesHeld(ctx: Context, intent: UserIntent) {
    match intent
    case PlayRadio(_, _) => MediaControl in ctx.scopes
    case Media(_, _) => MediaControl in ctx.scopes
    case ShowSensors(_) => EntityStateRead in ctx.scopes && DisplayControl in ctx.scopes
    case QuerySensor(_, _) => EntityStateRead in ctx.scopes
    case ShowNowPlaying(_) => DisplayControl in ctx.scopes
    case Actuate(_, _, _, _) => ActuatorControl in ctx.scopes
  }

  /** What is planned on the device that was selected. */
  function PlanOn(ctx: Context, intent: UserIntent, d: DirectoryDevice): Resolution
    requires Commands(intent)
  {
    match intent
    case PlayRadio(station, _) => Plan(None, [CommandFor(ctx, d, None, PlayStation(station))])
    case Media(action, _) => Plan(None, [CommandFor(ctx, d, None, MediaBody(action))])
    case ShowSensors(target) => SensorsOn(ctx, d, Selector(target))
    case ShowNowPlaying(target) => NowPlayingOn(ctx, d, Selector(target))
  }

  function Resolve(ctx: Context, devices: seq<DirectoryDevice>, intent: UserIntent): Resolution {
    if ValidateIntent(intent).Fail? then Error(InvalidIntent, Some(ValidateIntent(intent).field))
    else if ctx.user != ctx.owner || !ScopesHeld(ctx, intent) then Error(Forbidden, None)
    else if intent.Actuate? then
      var d := FindDevice(devices, intent.device);
      if d.None? then Error(Forbidden, None) else ActuateOn(d.value, intent.actuator, intent.value, intent.entity)
    else if intent.QuerySensor? then AnswerQuery(ctx, devices, intent.sensor, Selector(intent.target))
    else
      var chosen := Choose(ctx, devices, Selector(intent.target), d => Suits(intent, d));
      if chosen.Err? then chosen.error else PlanOn(ctx, intent, chosen.value)
  }
}
