/** Device declarations, presentations and commands. A string's length stands for its length in bytes. */
module DeviceModel {
  import opened Common

  type U8 = x: int | 0 <= x < 256
  type I8 = x: int | -128 <= x < 128
  type DeviceId = nat
  /** Nanoseconds since the epoch. */
  type Instant = int

  const CATALOG_STATION_SOURCE := "rockserver_catalog"
  const DIRECT_STATION_SOURCE := "direct_stream"

  /** A binary64 value; rounding never matters here, being finite does. */
  datatype Float = Finite(value: real) | Infinite(negative: bool) | NotANumber

  predicate Less(a: Float, b: Float) {
    match (a, b)
    case (Finite(x), Finite(y)) => x < y
    case (Infinite(true), Infinite(false)) => true
    case (Infinite(true), Finite(_)) => true
    case (Finite(_), Infinite(false)) => true
    case _ => false
  }

  datatype Json =
    | Null
    | Bool(b: bool)
    | Int(i: int)
    | Frac(x: real)
    | Str(s: string)
    | Arr(items: seq<Json>)
    | Obj(fields: map<string, Json>)

  datatype Role = Controller | Player | DisplaySurface | VoiceEndpoint | SensorSource | ActuatorRole | IntegrationAdapter

  datatype Scope = DirectoryRead | PresenceRead | EntityStateRead | MediaControl | DisplayControl | ActuatorControl

  datatype EntityDomain = SensorDomain | SwitchDomain | LightDomain | MediaPlayerDomain

  datatype ActuatorAction = TurnOn | TurnOff | SetValue

  datatype SurfaceKind = DisplayKind | VoiceKind | MobileKind

  datatype ViewKind = TextView | NowPlayingView | SensorGridView

  datatype Entity = Entity(
    id: string, domain: EntityDomain, deviceClass: string, title: string, readable: bool, controllable: bool,
    unit: Option<string>, allowedCommands: seq<ActuatorAction>, minimum: Option<Float>, maximum: Option<Float>)

  datatype Surface = Surface(id: string, kind: SurfaceKind, title: string, views: seq<ViewKind>)

  /** The capabilities that admission consults; every other one only has a name. */
  datatype Capability =
    | PlaybackCapability(actions: seq<string>)
    | StationCapability(sources: seq<string>)
    | VolumeCapability(step: U8, mute: bool)
    | DisplayCapability(views: seq<ViewKind>, maxItems: nat, maxTextLength: nat)
    | ActuatorCapability(commands: seq<ActuatorAction>)
    | OtherCapability(name: string)

  datatype Manifest = Manifest(roles: seq<Role>, capabilities: seq<Capability>, entities: seq<Entity>, surfaces: seq<Surface>)

  /** Part of what manifest validation demands: no two surfaces share an identifier. */
  ghost predicate UniqueSurfaces(m: Manifest) {
    forall i, j :: 0 <= i < j < |m.surfaces| ==> m.surfaces[i].id != m.surfaces[j].id
  }

  datatype Quality = GoodQuality | DegradedQuality | UnavailableQuality | UnknownQuality

  datatype Freshness = Fresh | Stale | UnknownFreshness

  datatype SensorCard = SensorCard(entity: string, title: string, value: Json, unit: Option<string>, quality: Quality,
                                   freshness: Freshness)

  datatype Presentation =
    | Text(text: string)
    | NowPlaying(station: string, title: string, subtitle: Option<string>)
    | SensorGrid(title: string, items: seq<SensorCard>)

  datatype StationPresentation = StationPresentation(name: string, iconUrl: Option<string>)

  datatype StreamSource = RockserverCatalog | DirectStream

  datatype VolumeCommand = SetLevel(level: U8) | Change(delta: I8) | SetMute(muted: bool)

  datatype CommandBody =
    | PlayStation(stationId: string)
    | PlayStream(source: StreamSource, echo: Option<string>, station: Option<StationPresentation>, streamUri: string)
    | Display(presentation: Presentation)
    | Playback(action: string)
    | Volume(command: VolumeCommand)
    | Actuator(actuator: ActuatorAction, value: Option<Float>)
    | Unknown(name: string, payload: map<string, Json>)

  datatype CommandTarget = CommandTarget(device: DeviceId, entity: Option<string>, surface: Option<string>)

  datatype DeviceCommand = DeviceCommand(id: nat, target: CommandTarget, deadline: Option<Instant>, body: CommandBody)

  // ---- Syntactic validation ----------------------------------------------------------------------------------

  /** A validation verdict: a failure names the offending field. */
  datatype Check = Pass | Fail(field: string)

  function Bounded(s: string, low: nat, high: nat, field: string): Check {
    if low <= |s| <= high then Pass else Fail(field)
  }

  function ValidateCards(items: seq<SensorCard>): Check {
    if items == [] then Pass
    else if Bounded(items[0].title, 1, 64, "label").Fail? then Fail("label")
    else if items[0].quality == UnavailableQuality && items[0].freshness == Fresh then Fail("quality/freshness")
    else ValidateCards(items[1..])
  }

  function ValidatePresentation(p: Presentation): Check {
    match p
    case Text(text) => Bounded(text, 1, 1024, "text")
    case NowPlaying(station, title, subtitle) =>
      if Bounded(station, 1, 128, "station_id").Fail? then Fail("station_id")
      else if Bounded(title, 1, 128, "title").Fail? then Fail("title")
      else if subtitle.Some? then Bounded(subtitle.value, 0, 256, "subtitle")
      else Pass
    case SensorGrid(title, items) =>
      if Bounded(title, 1, 128, "title").Fail? then Fail("title")
      else if |items| > 32 then Fail("items")
      else ValidateCards(items)
  }

  const SECOND: int := 1_000_000_000

  /** Whole seconds of a signed duration: the fraction is cut off towards zero. */
  function WholeSeconds(nanos: int): int {
    if nanos >= 0 then nanos / SECOND else -((-nanos) / SECOND)
  }

  function ValidateDeadline(deadline: Instant, receivedAt: Instant): Check {
    if 0 <= WholeSeconds(deadline - receivedAt) <= 30 then Pass else Fail("deadline_at")
  }

  function ValidateStream(source: StreamSource, echo: Option<string>, station: Option<StationPresentation>, uri: string,
                          admitsUri: string -> bool): Check {
    match (source, echo, station)
    case (RockserverCatalog, None, _) => Fail("station_id")
    case (DirectStream, Some(_), _) => Fail("station_id")
    case (DirectStream, None, Some(_)) => Fail("station")
    case (DirectStream, None, None) => if admitsUri(uri) then Pass else Fail("stream_uri")
    case (RockserverCatalog, Some(id), s) =>
      if Bounded(id, 1, 128, "station_id").Fail? then Fail("station_id")
      else if s.Some? && Bounded(s.value.name, 1, 128, "station.name").Fail? then Fail("station.name")
      else if s.Some? && s.value.iconUrl.Some? && !admitsUri(s.value.iconUrl.value) then Fail("station.icon_url")
      else if admitsUri(uri) then Pass else Fail("stream_uri")
  }

  /** `admitsUri` is the classification of stream destinations, which this model takes as given. */
  function ValidateBody(body: CommandBody, admitsUri: string -> bool): Check {
    match body
    case Unknown(_, _) => Pass
    case PlayStation(id) => Bounded(id, 1, 128, "station_id")
    case PlayStream(source, echo, station, uri) => ValidateStream(source, echo, station, uri, admitsUri)
    case Display(p) => ValidatePresentation(p)
    case Playback(action) => if action in ["play", "pause", "stop", "next", "previous"] then Pass else Fail("command")
    case Volume(Change(delta)) => if delta != 0 then Pass else Fail("command")
    case Volume(_) => Pass
    case Actuator(SetValue, Some(Finite(_))) => Pass
    case Actuator(SetValue, _) => Fail("command")
    case Actuator(_, Some(_)) => Fail("command")
    case Actuator(_, None) => Pass
  }

  function ValidateAt(c: DeviceCommand, receivedAt: Instant, admitsUri: string -> bool): Check {
    if c.target.entity.Some? && c.target.surface.Some? then Fail("target")
    else if c.deadline.Some? && ValidateDeadline(c.deadline.value, receivedAt).Fail? then Fail("deadline_at")
    else ValidateBody(c.body, admitsUri)
  }

  /**
   * Cutting fractions towards zero makes this the first and wider of two checks: it passes a deadline from just
   * under one second in the past to just under 31 seconds ahead.
   */
  lemma DeadlineWindowIsExact(deadline: Instant, receivedAt: Instant)
    ensures ValidateDeadline(deadline, receivedAt).Pass? <==> -SECOND < deadline - receivedAt < 31 * SECOND
  {
    var d := deadline - receivedAt;
    if d >= 0 {
      assert d == SECOND * (d / SECOND) + d % SECOND;
    } else {
      assert -d == SECOND * ((-d) / SECOND) + (-d) % SECOND;
    }
  }
}
