/** The router's check of a command against the manifest of the device it addresses. */
module TargetValidation {
  import opened Common
  import opened DeviceModel
  import DeviceRules

  datatype Verdict = Supported | Refused(code: string)

  predicate HasRole(m: Manifest, role: Role) {
    role in m.roles
  }

  predicate HasCapability(m: Manifest, test: Capability -> bool) {
    exists i :: 0 <= i < |m.capabilities| && test(m.capabilities[i])
  }

  function RequireRoleCapability(m: Manifest, role: Role, test: Capability -> bool): Verdict {
    if HasRole(m, role) && HasCapability(m, test) then Supported else Refused("capability_not_supported")
  }

  predicate OffersSource(c: Capability, source: string) {
    c.StationCapability? && source in c.sources
  }

  predicate OffersAction(c: Capability, action: string) {
    c.PlaybackCapability? && action in c.actions
  }

  predicate OffersVolume(c: Capability, command: VolumeCommand) {
    c.VolumeCapability? && (command.SetMute? ==> c.mute)
  }

  predicate OffersActuator(c: Capability, action: ActuatorAction) {
    c.ActuatorCapability? && action in c.commands
  }

  /** Text is bounded by length alone; a view must be declared and a grid must fit. */
  predicate OffersPresentation(c: Capability, p: Presentation) {
    c.DisplayCapability? &&
    match p
    case Text(text) => |text| <= c.maxTextLength
    case NowPlaying(_, _, _) => NowPlayingView in c.views
    case SensorGrid(_, items) => SensorGridView in c.views && |items| <= c.maxItems
  }

  function FindSurface(surfaces: seq<Surface>, id: string): Option<Surface> {
    if surfaces == [] then None
    else if surfaces[0].id == id then Some(surfaces[0])
    else FindSurface(surfaces[1..], id)
  }

  function FindEntity(entities: seq<Entity>, id: string): Option<Entity> {
    if entities == [] then None
    else if entities[0].id == id then Some(entities[0])
    else FindEntity(entities[1..], id)
  }

  predicate OutOfRange(entity: Entity, value: Float) {
    || (entity.minimum.Some? && Less(value, entity.minimum.value))
    || (entity.maximum.Some? && Less(entity.maximum.value, value))
  }

  function ValidateDisplay(target: CommandTarget, p: Presentation, m: Manifest): Verdict {
    if target.surface.None? then Refused("invalid_payload")
    else
      var surface := FindSurface(m.surfaces, target.surface.value);
      if surface.None? || surface.value.kind != DisplayKind then Refused("capability_not_supported")
      else RequireRoleCapability(m, DisplaySurface, c => OffersPresentation(c, p))
  }

  function ValidateActuator(target: CommandTarget, action: ActuatorAction, value: Option<Float>, m: Manifest): Verdict {
    if target.entity.None? then Refused("invalid_payload")
    else
      var entity := FindEntity(m.entities, target.entity.value);
      if entity.None? || !HasRole(m, ActuatorRole) || !entity.value.controllable
         || !HasCapability(m, c => OffersActuator(c, action))
      then Refused("capability_not_supported")
      else if action == SetValue && value.Some? && OutOfRange(entity.value, value.value) then Refused("invalid_payload")
      else Supported
  }

  function ValidateTarget(c: DeviceCommand, m: Manifest): Verdict {
    match c.body
    case PlayStation(_) => RequireRoleCapability(m, Player, x => OffersSource(x, CATALOG_STATION_SOURCE))
    case PlayStream(RockserverCatalog, _, _, _) =>
      RequireRoleCapability(m, Player, x => OffersSource(x, CATALOG_STATION_SOURCE))
    case PlayStream(DirectStream, _, _, _) => RequireRoleCapability(m, Player, x => OffersSource(x, DIRECT_STATION_SOURCE))
    case Playback(action) => RequireRoleCapability(m, Player, x => OffersAction(x, action))
    case Volume(command) => RequireRoleCapability(m, Player, x => OffersVolume(x, command))
    case Display(p) => ValidateDisplay(c.target, p, m)
    case Actuator(action, value) => ValidateActuator(c.target, action, value, m)
    case Unknown(_, _) => Refused("unsupported_command")
  }

  /** The scope the router demands of the controller for a body. */
  function RequiredScope(body: CommandBody): Scope {
    match body
    case Display(_) => DisplayControl
    case Actuator(_, _) => ActuatorControl
    case _ => MediaControl
  }

  // ---- Deadlines ---------------------------------------------------------------------------------------------

  const DEFAULT_TIMEOUT: int := 10 * SECOND
  const MAX_TIMEOUT: int := 30 * SECOND

  function EffectiveDeadline(requested: Option<Instant>, now: Instant): Instant {
    if requested.Some? then requested.value else now + DEFAULT_TIMEOUT
  }

  /**
   * A submit's way to its reservation as far as time and syntax decide it: the syntactic check at receipt, the
   * range check of the router, and the store's own syntactic check, which takes the deadline as the receipt time.
   */
  function AdmitCommand(c: DeviceCommand, now: Instant, admitsUri: string -> bool): Result<Instant, string> {
    var deadline := EffectiveDeadline(c.deadline, now);
    if ValidateAt(c, now, admitsUri).Fail? then Err("invalid_payload")
    else if deadline <= now || deadline > now + MAX_TIMEOUT then Err("command_timeout")
    else if ValidateAt(c.(deadline := Some(deadline)), deadline, admitsUri).Fail? then Err("persistence_unavailable")
    else Ok(deadline)
  }

  /** A submit is invalid exactly when its target, its body or its deadline, by a second either way, is. */
  lemma {:induction false} InvalidSubmitIsExact(c: DeviceCommand, now: Instant, admitsUri: string -> bool)
    ensures AdmitCommand(c, now, admitsUri) == Err("invalid_payload") <==>
              || (c.target.entity != None && c.target.surface != None)
              || ValidateBody(c.body, admitsUri) != Pass
              || (c.deadline != None && !(-1_000_000_000 < c.deadline.value - now < 31_000_000_000))
  {
    DeviceRules.CommandRule(c, now, admitsUri);
  }

  /**
   * The wider window of the first check never reaches a target: an otherwise valid command is reserved exactly when
   * its requested deadline lies after now and at most 30 seconds ahead, and a command without one gets 10 seconds.
   */
  lemma {:induction false} AdmittedDeadlineIsExact(c: DeviceCommand, now: Instant, admitsUri: string -> bool)
    requires ValidateAt(c.(deadline := None), now, admitsUri).Pass?
    ensures AdmitCommand(c, now, admitsUri).Ok? <==> (c.deadline.Some? ==> now < c.deadline.value <= now + 30_000_000_000)
    ensures AdmitCommand(c, now, admitsUri).Ok? ==>
              AdmitCommand(c, now, admitsUri).value == if c.deadline == None then now + 10_000_000_000 else c.deadline.value
    ensures AdmitCommand(c, now, admitsUri) == Err("command_timeout") <==>
              && c.deadline.Some?
              && (-1_000_000_000 < c.deadline.value - now <= 0 || 30_000_000_000 < c.deadline.value - now < 31_000_000_000)
    ensures AdmitCommand(c, now, admitsUri) != Err("persistence_unavailable")
  {
    var deadline := EffectiveDeadline(c.deadline, now);
    DeadlineWindowIsExact(deadline, now);
    DeadlineWindowIsExact(deadline, deadline);
    assert "invalid_payload" != "command_timeout" && "invalid_payload"[0] != "persistence_unavailable"[0];
    assert "command_timeout"[0] != "persistence_unavailable"[0];
  }

  // ---- Acceptance told from what a device declares -------------------------------------------------------------

  ghost predicate DeclaresSource(m: Manifest, source: string) {
    Player in m.roles && exists i :: 0 <= i < |m.capabilities| && m.capabilities[i].StationCapability? && source in m.capabilities[i].sources
  }

  ghost predicate DeclaresAction(m: Manifest, action: string) {
    Player in m.roles && exists i :: 0 <= i < |m.capabilities| && m.capabilities[i].PlaybackCapability? && action in m.capabilities[i].actions
  }

  ghost predicate DeclaresVolume(m: Manifest, needsMute: bool) {
    Player in m.roles && exists i :: 0 <= i < |m.capabilities| && m.capabilities[i].VolumeCapability? && (needsMute ==> m.capabilities[i].mute)
  }

  ghost predicate DeclaresText(m: Manifest, length: nat) {
    exists i :: 0 <= i < |m.capabilities| && m.capabilities[i].DisplayCapability? && length <= m.capabilities[i].maxTextLength
  }

  ghost predicate DeclaresNowPlaying(m: Manifest) {
    exists i :: 0 <= i < |m.capabilities| && m.capabilities[i].DisplayCapability? && NowPlayingView in m.capabilities[i].views
  }

  ghost predicate DeclaresGrid(m: Manifest, cards: nat) {
    exists i :: 0 <= i < |m.capabilities| && m.capabilities[i].DisplayCapability?
      && SensorGridView in m.capabilities[i].views && cards <= m.capabilities[i].maxItems
  }

  ghost predicate DeclaresPresentation(m: Manifest, p: Presentation) {
    match p
    case Text(text) => DeclaresText(m, |text|)
    case NowPlaying(_, _, _) => DeclaresNowPlaying(m)
    case SensorGrid(_, items) => DeclaresGrid(m, |items|)
  }

  ghost predicate DeclaresActuator(m: Manifest, action: ActuatorAction) {
    ActuatorRole in m.roles
    && exists i :: 0 <= i < |m.capabilities| && m.capabilities[i].ActuatorCapability? && action in m.capabilities[i].commands
  }

  /** The first surface with the identifier is a display. */
  ghost predicate ShowsOn(m: Manifest, surface: string) {
    exists i :: 0 <= i < |m.surfaces| && m.surfaces[i].id == surface && m.surfaces[i].kind == DisplayKind
      && forall j :: 0 <= j < i ==> m.surfaces[j].id != surface
  }

  /** The first entity with the identifier is controllable. */
  ghost predicate Controls(m: Manifest, entity: string) {
    exists i: nat :: FirstEntity(m, entity, i) && m.entities[i].controllable
  }

  ghost predicate FirstEntity(m: Manifest, entity: string, i: nat) {
    i < |m.entities| && m.entities[i].id == entity && forall j :: 0 <= j < i ==> m.entities[j].id != entity
  }

  /** A set point below the minimum or above the maximum of the first entity with the identifier. */
  ghost predicate ExceedsRange(m: Manifest, entity: string, action: ActuatorAction, value: Option<Float>) {
    && action == SetValue && value.Some?
    && (exists i: nat :: FirstEntity(m, entity, i)
          && (|| (m.entities[i].minimum.Some? && Less(value.value, m.entities[i].minimum.value))
              || (m.entities[i].maximum.Some? && Less(m.entities[i].maximum.value, value.value))))
  }

  lemma {:induction false} SurfaceIsFirst(m: Manifest, surfaces: seq<Surface>, id: string)
    ensures match FindSurface(surfaces, id)
            case None => forall i :: 0 <= i < |surfaces| ==> surfaces[i].id != id
            case Some(s) => exists i :: 0 <= i < |surfaces| && surfaces[i] == s && s.id == id && forall j :: 0 <= j < i ==> surfaces[j].id != id
  {
    if surfaces != [] && surfaces[0].id != id {
      SurfaceIsFirst(m, surfaces[1..], id);
      if FindSurface(surfaces, id).Some? {
        var i :| 0 <= i < |surfaces[1..]| && surfaces[1..][i] == FindSurface(surfaces, id).value
                 && forall j :: 0 <= j < i ==> surfaces[1..][j].id != id;
        forall j | 0 <= j < i + 1 ensures surfaces[j].id != id {
          assert j > 0 ==> surfaces[j] == surfaces[1..][j - 1];
        }
        assert surfaces[i + 1] == FindSurface(surfaces, id).value;
      } else {
        assert forall i :: 0 < i < |surfaces| ==> surfaces[i] == surfaces[1..][i - 1];
      }
    }
  }

  lemma {:induction false} EntityIsFirst(entities: seq<Entity>, id: string)
    ensures match FindEntity(entities, id)
            case None => forall i :: 0 <= i < |entities| ==> entities[i].id != id
            case Some(e) => exists i :: 0 <= i < |entities| && entities[i] == e && e.id == id && forall j :: 0 <= j < i ==> entities[j].id != id
  {
    if entities != [] && entities[0].id != id {
      EntityIsFirst(entities[1..], id);
      if FindEntity(entities, id).Some? {
        var i :| 0 <= i < |entities[1..]| && entities[1..][i] == FindEntity(entities, id).value
                 && forall j :: 0 <= j < i ==> entities[1..][j].id != id;
        forall j | 0 <= j < i + 1 ensures entities[j].id != id {
          assert j > 0 ==> entities[j] == entities[1..][j - 1];
        }
        assert entities[i + 1] == FindEntity(entities, id).value;
      } else {
        assert forall i :: 0 < i < |entities| ==> entities[i] == entities[1..][i - 1];
      }
    }
  }

  /** Playback, volume and both kinds of stream: accepted by role and declared capability alone. */
  lemma {:induction false} PlayerAcceptanceIsExact(c: DeviceCommand, m: Manifest)
    requires !c.body.Display? && !c.body.Actuator?
    ensures ValidateTarget(c, m) == Supported <==>
              match c.body
              case PlayStation(_) => DeclaresSource(m, "rockserver_catalog")
              case PlayStream(RockserverCatalog, _, _, _) => DeclaresSource(m, "rockserver_catalog")
              case PlayStream(DirectStream, _, _, _) => DeclaresSource(m, "direct_stream")
              case Playback(action) => DeclaresAction(m, action)
              case Volume(SetMute(_)) => DeclaresVolume(m, true)
              case Volume(_) => DeclaresVolume(m, false)
              case _ => false
    ensures ValidateTarget(c, m) != Supported ==>
              ValidateTarget(c, m) == Refused(if c.body.Unknown? then "unsupported_command" else "capability_not_supported")
  {
  }

  lemma {:induction false} DisplayAcceptanceIsExact(c: DeviceCommand, m: Manifest)
    requires c.body.Display?
    ensures ValidateTarget(c, m) == Refused("invalid_payload") <==> c.target.surface == None
    ensures ValidateTarget(c, m) == Supported <==>
              && c.target.surface != None && ShowsOn(m, c.target.surface.value)
              && DisplaySurface in m.roles && DeclaresPresentation(m, c.body.presentation)
    ensures ValidateTarget(c, m) in [Supported, Refused("invalid_payload"), Refused("capability_not_supported")]
  {
    assert "invalid_payload"[0] != "capability_not_supported"[0];
    if c.target.surface.Some? {
      SurfaceIsFirst(m, m.surfaces, c.target.surface.value);
    }
  }

  lemma {:induction false} ActuatorAcceptanceIsExact(c: DeviceCommand, m: Manifest)
    requires c.body.Actuator?
    ensures ValidateTarget(c, m) == Supported <==>
              && c.target.entity != None && Controls(m, c.target.entity.value) && DeclaresActuator(m, c.body.actuator)
              && !ExceedsRange(m, c.target.entity.value, c.body.actuator, c.body.value)
    ensures ValidateTarget(c, m) == Refused("invalid_payload") <==>
              || c.target.entity == None
              || (Controls(m, c.target.entity.value) && DeclaresActuator(m, c.body.actuator)
                  && ExceedsRange(m, c.target.entity.value, c.body.actuator, c.body.value))
    ensures ValidateTarget(c, m) in [Supported, Refused("invalid_payload"), Refused("capability_not_supported")]
  {
    assert "invalid_payload"[0] != "capability_not_supported"[0];
    if c.target.entity.Some? {
      EntityFacts(m, c.target.entity.value, c.body.actuator, c.body.value);
    }
  }

  lemma EntityFacts(m: Manifest, entity: string, action: ActuatorAction, value: Option<Float>)
    ensures var found := FindEntity(m.entities, entity);
            && (Controls(m, entity) <==> found.Some? && found.value.controllable)
            && (ExceedsRange(m, entity, action, value) <==>
                  action == SetValue && value.Some? && found.Some? && OutOfRange(found.value, value.value))
  {
    var found := FindEntity(m.entities, entity);
    EntityIsFirst(m.entities, entity);
    if found.Some? {
      var i: nat :| i < |m.entities| && m.entities[i] == found.value && m.entities[i].id == entity
                    && forall j :: 0 <= j < i ==> m.entities[j].id != entity;
      assert FirstEntity(m, entity, i);
      forall j: nat | FirstEntity(m, entity, j) ensures j == i {
      }
    }
  }
}
