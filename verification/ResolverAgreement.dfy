/** The resolver against the router: what it plans is accepted, it never guesses, and directory order is irrelevant. */
module ResolverAgreement {
  import opened Common
  import opened DeviceModel
  import opened TargetValidation
  import opened IntentResolver
  import opened CommandCodec

  // ---- Selection is exact ------------------------------------------------------------------------------------

  /** The single condition that the chain of filters amounts to. */
  predicate Fits(ctx: Context, target: IntentTarget, suits: DirectoryDevice -> bool, d: DirectoryDevice) {
    && suits(d)
    && InArea(ctx, target, d)
    && (if target.device.Some? then d.id == target.device.value
        else if target.surface.Some? then HasSurface(d.manifest, target.surface.value)
        else CurrentDevice(ctx).Some? ==> d.id == CurrentDevice(ctx).value)
  }

  lemma {:induction false} FilterTwice<T>(xs: seq<T>, p: T -> bool, q: T -> bool, both: T -> bool)
    requires forall x :: both(x) <==> p(x) && q(x)
    ensures Filter(Filter(xs, p), q) == Filter(xs, both)
  {
    if xs != [] {
      FilterTwice(xs[1..], p, q, both);
      if p(xs[0]) {
        assert Filter(xs, p)[1..] == Filter(xs[1..], p);
      } else {
        assert Filter(xs, p) == Filter(xs[1..], p);
      }
    }
  }

  lemma {:induction false} FilterCounts<T(!new)>(xs: seq<T>, p: T -> bool, x: T)
    ensures multiset(Filter(xs, p))[x] == if p(x) then multiset(xs)[x] else 0
  {
    if xs != [] {
      FilterCounts(xs[1..], p, x);
      assert xs == [xs[0]] + xs[1..];
    }
  }

  /** The candidates left after every filter, and the failure reported when there are none. */
  function Pick(ctx: Context, devices: seq<DirectoryDevice>, target: IntentTarget, fits: seq<DirectoryDevice>)
    : Result<DirectoryDevice, Resolution> {
    if target.area.Some? && AreaOf(ctx, target).None? then Err(Error(UnsupportedSelector, None))
    else if fits == [] && target.device.Some? then Err(Error(AbsentCode(devices, target.device.value), None))
    else if fits == [] && target.surface.None? && CurrentDevice(ctx).Some?
    then Err(Error(AbsentCode(devices, CurrentDevice(ctx).value), None))
    else ChooseOne(fits)
  }

  lemma ChooseIsPick(ctx: Context, devices: seq<DirectoryDevice>, target: IntentTarget, suits: DirectoryDevice -> bool)
    ensures Choose(ctx, devices, target, suits)
      == Pick(ctx, devices, target, Filter(devices, d => Fits(ctx, target, suits, d)))
  {
    var fits := (d: DirectoryDevice) => Fits(ctx, target, suits, d);
    var near := (d: DirectoryDevice) => suits(d) && InArea(ctx, target, d);
    FilterTwice(devices, suits, d => InArea(ctx, target, d), near);
    var candidates := CompatibleDevices(ctx, devices, target, suits);
    assert candidates == Filter(devices, near);
    if target.device.Some? {
      FilterTwice(devices, near, (d: DirectoryDevice) => d.id == target.device.value, fits);
    } else if target.surface.Some? {
      FilterTwice(devices, near, (d: DirectoryDevice) => HasSurface(d.manifest, target.surface.value), fits);
    } else if CurrentDevice(ctx).Some? {
      FilterTwice(devices, near, (d: DirectoryDevice) => d.id == CurrentDevice(ctx).value, fits);
    } else {
      FilterTwice(devices, near, (d: DirectoryDevice) => true, fits);
      KeepAll(candidates);
    }
  }

  lemma {:induction false} KeepAll(xs: seq<DirectoryDevice>)
    ensures Filter(xs, (d: DirectoryDevice) => true) == xs
  {
    if xs != [] {
      KeepAll(xs[1..]);
    }
  }

  /** Exactly one position of the directory holds a device that fits, and it is this one. */
  ghost predicate OnlyFit(ctx: Context, devices: seq<DirectoryDevice>, target: IntentTarget, suits: DirectoryDevice -> bool,
                          d: DirectoryDevice) {
    Fits(ctx, target, suits, d) && multiset(devices)[d] == 1
    && forall e :: e in devices && Fits(ctx, target, suits, e) ==> e == d
  }

  /** A device is chosen exactly when its area is known and it alone fits: never a guess among several. */
  lemma SelectionIsExact(ctx: Context, devices: seq<DirectoryDevice>, target: IntentTarget, suits: DirectoryDevice -> bool,
                         d: DirectoryDevice)
    ensures Choose(ctx, devices, target, suits) == Ok(d) <==>
      !(target.area.Some? && AreaOf(ctx, target).None?) && OnlyFit(ctx, devices, target, suits, d)
  {
    var fits := (e: DirectoryDevice) => Fits(ctx, target, suits, e);
    var left := Filter(devices, fits);
    ChooseIsPick(ctx, devices, target, suits);
    FilterCounts(devices, fits, d);
    forall e | e in devices && Fits(ctx, target, suits, e) ensures e in left {
      FilterCounts(devices, fits, e);
      assert e in multiset(devices);
      assert e in multiset(left);
    }
    forall e | e in left ensures e in devices && Fits(ctx, target, suits, e) {
      FilterCounts(devices, fits, e);
      assert e in multiset(left);
      assert e in multiset(devices);
    }
    OnlyElement(left, d);
  }

  lemma {:induction false} AllOccurrences<T>(xs: seq<T>, d: T)
    requires forall i :: 0 <= i < |xs| ==> xs[i] == d
    ensures multiset(xs)[d] == |xs|
  {
    if xs != [] {
      AllOccurrences(xs[1..], d);
      assert xs == [xs[0]] + xs[1..];
    }
  }

  lemma OnlyElement<T(!new)>(xs: seq<T>, d: T)
    ensures xs == [d] <==> multiset(xs)[d] == 1 && forall e :: e in xs ==> e == d
  {
    if forall e :: e in xs ==> e == d {
      forall i | 0 <= i < |xs| ensures xs[i] == d {
        assert xs[i] in xs;
      }
      AllOccurrences(xs, d);
    }
  }

  // ---- What is planned is accepted ---------------------------------------------------------------------------

  lemma {:induction false} FoundIsMember(devices: seq<DirectoryDevice>, id: DeviceId)
    ensures FindDevice(devices, id).Some? ==> FindDevice(devices, id).value in devices && FindDevice(devices, id).value.id == id
  {
    if devices != [] && devices[0].id != id {
      FoundIsMember(devices[1..], id);
    }
  }

  /** With distinct surface identifiers, looking a surface up by its identifier finds that surface. */
  lemma {:induction false} SurfaceIsFound(surfaces: seq<Surface>, s: Surface)
    requires forall i, j :: 0 <= i < j < |surfaces| ==> surfaces[i].id != surfaces[j].id
    requires s in surfaces
    ensures FindSurface(surfaces, s.id) == Some(s)
  {
    if surfaces[0] != s {
      assert s in surfaces[1..];
      SurfaceIsFound(surfaces[1..], s);
    }
  }

  /** The two modules walk the declared capabilities separately; tests that agree on each capability agree on the manifest. */
  lemma WalksAgree(m: Manifest, mine: Capability -> bool, theirs: Capability -> bool)
    requires forall c :: mine(c) <==> theirs(c)
    ensures Declares(m, mine) <==> HasCapability(m, theirs)
  {
    if Declares(m, mine) {
      var c :| c in m.capabilities && mine(c);
      var i :| 0 <= i < |m.capabilities| && m.capabilities[i] == c;
      assert theirs(m.capabilities[i]);
    }
    if HasCapability(m, theirs) {
      var i :| 0 <= i < |m.capabilities| && theirs(m.capabilities[i]);
      assert mine(m.capabilities[i]);
    }
  }

  /** The resolver's media test is the router's target check, on every manifest and every body. */
  lemma {:induction false} MediaTestsAgree(c: DeviceCommand, m: Manifest)
    ensures MediaSupported(m, c.body) <==> (c.body.Playback? || c.body.Volume?) && ValidateTarget(c, m) == Supported
  {
    match c.body
    case Playback(action) => WalksAgree(m, x => PlaysAction(x, action), x => OffersAction(x, action));
    case Volume(command) => WalksAgree(m, x => TakesVolume(x, command), x => OffersVolume(x, command));
    case _ =>
  }

  lemma {:induction false} PresentationTestsAgree(m: Manifest, p: Presentation)
    ensures PresentationSupported(m, p) <==> HasCapability(m, c => OffersPresentation(c, p))
  {
    WalksAgree(m, c => Presents(c, p), c => OffersPresentation(c, p));
  }

  lemma {:induction false} EntityLookupsAgree(entities: seq<Entity>, id: string)
    ensures EntityNamed(entities, id) == FindEntity(entities, id)
  {
    if entities != [] {
      EntityLookupsAgree(entities[1..], id);
    }
  }

  /**
   * For actuators the resolver is stricter: it proposes exactly what the router would accept on an online device whose
   * entity also lists the action and is a switch or light that is neither a lock nor a climate device.
   */
  lemma {:induction false} ActuatorAgreementIsExact(ctx: Context, d: DirectoryDevice, action: ActuatorAction, value: Option<Float>, entity: string)
    requires ValidateIntent(Actuate(action, value, d.id, entity)).Pass?
    ensures var c := DeviceCommand(ctx.commandId, CommandTarget(d.id, Some(entity), None), None, Actuator(action, value));
            var found := EntityNamed(d.manifest.entities, entity);
            ActuateOn(d, action, value, entity).Confirmation? <==>
              && d.online && ValidateTarget(c, d.manifest) == Supported
              && found.Some? && action in found.value.allowedCommands && SafeActuator(found.value)
  {
    EntityLookupsAgree(d.manifest.entities, entity);
    WalksAgree(d.manifest, c => Drives(c, action), c => OffersActuator(c, action));
  }

  lemma SelectedSurfaceSuits(ctx: Context, d: DirectoryDevice, target: IntentTarget, view: ViewKind)
    requires SelectSurface(ctx, d, target, view).Ok?
    ensures var s := SelectSurface(ctx, d, target, view).value;
      s in d.manifest.surfaces && SurfaceSuits(s, view, RequestedSurface(ctx, d, target))
  {
    var requested := RequestedSurface(ctx, d, target);
    var s := SelectSurface(ctx, d, target, view).value;
    FilterCounts(d.manifest.surfaces, x => SurfaceSuits(x, view, requested), s);
    assert s in multiset(Filter(d.manifest.surfaces, x => SurfaceSuits(x, view, requested)));
    assert s in multiset(d.manifest.surfaces);
  }

  lemma DisplayPlanIsAccepted(ctx: Context, d: DirectoryDevice, s: Surface, p: Presentation, admitsUri: string -> bool)
    requires UniqueSurfaces(d.manifest) && s in d.manifest.surfaces && s.kind == DisplayKind
    requires DeclaresRole(d.manifest, DisplaySurface) && DisplayPlan(ctx, d, s, p).Plan?
    ensures var c := CommandFor(ctx, d, Some(s.id), Display(p));
      ValidateAt(c, ctx.receivedAt, admitsUri) == Pass && ValidateTarget(c, d.manifest) == Supported
  {
    SurfaceIsFound(d.manifest.surfaces, s);
    PresentationTestsAgree(d.manifest, p);
  }

  predicate OffersCatalog(m: Manifest) {
    HasCapability(m, c => OffersSource(c, CATALOG_STATION_SOURCE))
  }

  /** The one condition the router adds: playing a station needs the catalog source. */
  predicate RouterAlsoNeeds(body: CommandBody, m: Manifest) {
    body.PlayStation? ==> OffersCatalog(m)
  }

  lemma PlanOnIsAccepted(ctx: Context, intent: UserIntent, d: DirectoryDevice, admitsUri: string -> bool)
    requires Commands(intent) && ValidateIntent(intent).Pass? && Suits(intent, d) && UniqueSurfaces(d.manifest)
    requires PlanOn(ctx, intent, d).Plan?
    ensures var cs := PlanOn(ctx, intent, d).commands;
      |cs| == 1 && cs[0].target.device == d.id && cs[0].id == ctx.commandId
      && ValidateAt(cs[0], ctx.receivedAt, admitsUri) == Pass
      && (ValidateTarget(cs[0], d.manifest) == Supported <==> RouterAlsoNeeds(cs[0].body, d.manifest))
  {
    match intent
    case Media(action, _) => MediaTestsAgree(CommandFor(ctx, d, None, MediaBody(action)), d.manifest);
    case PlayRadio(_, _) =>
    case ShowSensors(target) =>
      SelectedSurfaceSuits(ctx, d, Selector(target), SensorGridView);
      var s := SelectSurface(ctx, d, Selector(target), SensorGridView).value;
      var cards := CardsFor(Filter(d.manifest.entities, ReadableSensor), d.entityStates, ctx.receivedAt);
      DisplayPlanIsAccepted(ctx, d, s, SensorGrid("Sensors", cards), admitsUri);
    case ShowNowPlaying(target) =>
      SelectedSurfaceSuits(ctx, d, Selector(target), NowPlayingView);
      var s := SelectSurface(ctx, d, Selector(target), NowPlayingView).value;
      var station := d.playback.value.station.value;
      DisplayPlanIsAccepted(ctx, d, s, NowPlaying(station, station, None), admitsUri);
  }

  /**
   * A plan for a sensor query carries no command. Every other plan carries one, for an online device of the actor's own
   * directory that alone fits the request; the actor holds the scope the router asks for; the command passes the
   * router's syntactic check, and its target check exactly when, for a station, the device offers the catalog source.
   */
  lemma PlanIsAccepted(ctx: Context, devices: seq<DirectoryDevice>, intent: UserIntent, admitsUri: string -> bool)
    returns (d: DirectoryDevice)
    requires Resolve(ctx, devices, intent).Plan?
    requires forall e :: e in devices ==> UniqueSurfaces(e.manifest)
    ensures !intent.Actuate? && ctx.user == ctx.owner
    ensures intent.QuerySensor? ==> Resolve(ctx, devices, intent).commands == []
    ensures Commands(intent) ==> PlannedFor(ctx, devices, intent, d, admitsUri)
  {
    if intent.QuerySensor? {
      d := AnyDevice();
    } else {
      d := ResolvedOn(ctx, devices, intent);
      PlanOnIsAccepted(ctx, intent, d, admitsUri);
      PlanBody(ctx, intent, d);
    }
  }

  lemma FailuresAreQuestions(ctx: Context, devices: seq<DirectoryDevice>, target: IntentTarget, suits: DirectoryDevice -> bool)
    ensures Choose(ctx, devices, target, suits).Err? ==>
              Choose(ctx, devices, target, suits).error.Error? || Choose(ctx, devices, target, suits).error.Clarification?
  {
  }

  /** A plan or confirmation of a commanding intent comes from the one device that was selected. */
  lemma ResolvedOn(ctx: Context, devices: seq<DirectoryDevice>, intent: UserIntent) returns (d: DirectoryDevice)
    requires Commands(intent) && (Resolve(ctx, devices, intent).Plan? || Resolve(ctx, devices, intent).Confirmation?)
    ensures Resolve(ctx, devices, intent) == PlanOn(ctx, intent, d) && d in devices
    ensures OnlyFit(ctx, devices, Selector(intent.target), x => Suits(intent, x), d)
    ensures ValidateIntent(intent).Pass? && ctx.user == ctx.owner && ScopesHeld(ctx, intent)
  {
    var suits := x => Suits(intent, x);
    var target := Selector(intent.target);
    FailuresAreQuestions(ctx, devices, target, suits);
    d := Choose(ctx, devices, target, suits).value;
    SelectionIsExact(ctx, devices, target, suits, d);
    assert d in multiset(devices);
  }

  ghost predicate PlannedFor(ctx: Context, devices: seq<DirectoryDevice>, intent: UserIntent, d: DirectoryDevice,
                             admitsUri: string -> bool)
    requires Commands(intent)
  {
    && d in devices && d.online && OnlyFit(ctx, devices, Selector(intent.target), x => Suits(intent, x), d)
    && Resolve(ctx, devices, intent).Plan?
    && var cs := Resolve(ctx, devices, intent).commands;
    && |cs| == 1 && cs[0].target.device == d.id && cs[0].id == ctx.commandId
    && RequiredScope(cs[0].body) in ctx.scopes
    && ValidateAt(cs[0], ctx.receivedAt, admitsUri) == Pass
    && (ValidateTarget(cs[0], d.manifest) == Supported <==> RouterAlsoNeeds(cs[0].body, d.manifest))
    && (intent.target.Some? && intent.target.value.device.Some? ==> d.id == intent.target.value.device.value)
  }

  function AnyDevice(): DirectoryDevice {
    DirectoryDevice(0, Manifest([], [], [], []), false, None, [])
  }

  lemma PlanBody(ctx: Context, intent: UserIntent, d: DirectoryDevice)
    requires Commands(intent) && PlanOn(ctx, intent, d).Plan?
    ensures |PlanOn(ctx, intent, d).commands| == 1
    ensures var cs := PlanOn(ctx, intent, d).commands;
      match intent
      case PlayRadio(station, _) => cs[0].body == PlayStation(station)
      case Media(action, _) => cs[0].body == MediaBody(action)
      case ShowSensors(_) => cs[0].body.Display? && cs[0].body.presentation.SensorGrid?
      case ShowNowPlaying(_) => BareNowPlaying(cs[0].body)
  {
  }

  /** For media intents resolver and router agree in both directions, device by device. */
  lemma MediaAgreementIsExact(ctx: Context, action: MediaAction, target: Option<IntentTarget>, d: DirectoryDevice)
    ensures Suits(Media(action, target), d) <==>
      d.online && ValidateTarget(CommandFor(ctx, d, None, MediaBody(action)), d.manifest) == Supported
  {
    MediaTestsAgree(CommandFor(ctx, d, None, MediaBody(action)), d.manifest);
  }

  /** For radio the resolver is laxer: it selects a station player without the catalog source, which the router refuses. */
  lemma RadioGapIsExact(ctx: Context, station: string, target: Option<IntentTarget>, d: DirectoryDevice)
    ensures d.online && ValidateTarget(CommandFor(ctx, d, None, PlayStation(station)), d.manifest) == Supported <==>
      Suits(PlayRadio(station, target), d) && OffersCatalog(d.manifest)
  {
    var c := CommandFor(ctx, d, None, PlayStation(station));
    if ValidateTarget(c, d.manifest) == Supported {
      var i :| 0 <= i < |d.manifest.capabilities| && OffersSource(d.manifest.capabilities[i], CATALOG_STATION_SOURCE);
      assert d.manifest.capabilities[i] in d.manifest.capabilities && d.manifest.capabilities[i].StationCapability?;
    }
  }

  /** A player that offers direct streams only. */
  function DirectPlayer(): DirectoryDevice {
    DirectoryDevice(0, Manifest([Player], [StationCapability([DIRECT_STATION_SOURCE])], [], []), true, None, [])
  }

  /** Asked for radio, the resolver plans on it; the router refuses exactly that command. */
  lemma {:induction false} RadioGapIsReached(ctx: Context, station: string)
    requires ctx.user == ctx.owner && MediaControl in ctx.scopes && CurrentDevice(ctx).None? && 1 <= |station| <= 128
    ensures var c := CommandFor(ctx, DirectPlayer(), None, PlayStation(station));
            && Resolve(ctx, [DirectPlayer()], PlayRadio(station, None)) == Plan(None, [c])
            && ValidateTarget(c, DirectPlayer().manifest) == Refused("capability_not_supported")
  {
    var d := DirectPlayer();
    var suits := x => Suits(PlayRadio(station, None), x);
    assert d.manifest.capabilities[0] in d.manifest.capabilities && d.manifest.capabilities[0].StationCapability?;
    assert RadioSuits(d);
    assert multiset([d])[d] == 1;
    SelectionIsExact(ctx, [d], Selector(None), suits, d);
    assert DIRECT_STATION_SOURCE[0] != CATALOG_STATION_SOURCE[0];
  }

  /** A confirmed actuator proposal, once submitted, passes both of the router's checks. */
  lemma ConfirmationIsAccepted(ctx: Context, devices: seq<DirectoryDevice>, intent: UserIntent, admitsUri: string -> bool)
    returns (d: DirectoryDevice)
    requires Resolve(ctx, devices, intent).Confirmation?
    ensures intent.Actuate? && d in devices && d.online && d.id == intent.device && ctx.user == ctx.owner
    ensures var r := Resolve(ctx, devices, intent);
      var c := DeviceCommand(ctx.commandId, r.target, None, Actuator(r.action, r.value));
      && r.target == CommandTarget(intent.device, Some(intent.entity), None)
      && RequiredScope(c.body) in ctx.scopes
      && ValidateAt(c, ctx.receivedAt, admitsUri) == Pass
      && ValidateTarget(c, d.manifest) == Supported
  {
    OnlyActuateConfirms(ctx, devices, intent);
    FoundIsMember(devices, intent.device);
    d := FindDevice(devices, intent.device).value;
    ActuatorAgreementIsExact(ctx, d, intent.actuator, intent.value, intent.entity);
  }

  lemma OnlyActuateConfirms(ctx: Context, devices: seq<DirectoryDevice>, intent: UserIntent)
    ensures Resolve(ctx, devices, intent).Confirmation? ==> intent.Actuate?
  {
    if Commands(intent) && Resolve(ctx, devices, intent).Confirmation? {
      var d := ResolvedOn(ctx, devices, intent);
    }
  }

  lemma PlannedBodyOnTheWire(ctx: Context, intent: UserIntent, d: DirectoryDevice)
    requires Commands(intent) && ValidateIntent(intent).Pass? && Suits(intent, d) && UniqueSurfaces(d.manifest)
    requires PlanOn(ctx, intent, d).Plan?
    ensures var cs := PlanOn(ctx, intent, d).commands;
      |cs| == 1 && (Decode(Obj(Encode(cs[0].body))) == Ok(cs[0].body) <==> !intent.ShowNowPlaying?)
  {
    var admitsUri := (uri: string) => true;
    PlanOnIsAccepted(ctx, intent, d, admitsUri);
    var c := PlanOn(ctx, intent, d).commands[0];
    assert ValidateBody(c.body, admitsUri) == Pass;
    var known := !c.body.Unknown? && (BareNowPlaying(c.body) <==> intent.ShowNowPlaying?);
    assert known by {
      PlanBody(ctx, intent, d);
    }
    ValidBodyRoundTrips(c.body, admitsUri);
  }

  /** A planned command can be read back from its wire form exactly when it is not a now-playing view. */
  lemma {:induction false} PlanOnTheWire(ctx: Context, devices: seq<DirectoryDevice>, intent: UserIntent)
    requires Resolve(ctx, devices, intent).Plan? && forall e :: e in devices ==> UniqueSurfaces(e.manifest)
    ensures var cs := Resolve(ctx, devices, intent).commands;
      forall i :: 0 <= i < |cs| ==> (Decode(Obj(Encode(cs[i].body))) == Ok(cs[i].body) <==> !intent.ShowNowPlaying?)
  {
    if Commands(intent) {
      var d := ResolvedOn(ctx, devices, intent);
      assert UniqueSurfaces(d.manifest);
      PlannedBodyOnTheWire(ctx, intent, d);
    }
  }

  // ---- Directory order is irrelevant -------------------------------------------------------------------------

  /** Every device occurs once and no two devices share an identifier. */
  ghost predicate UniqueDevices(devices: seq<DirectoryDevice>) {
    && (forall d :: d in multiset(devices) ==> multiset(devices)[d] == 1)
    && (forall d, e :: d in devices && e in devices && d.id == e.id ==> d == e)
  }

  /** Equal, or the same question with its candidates listed in another order. */
  ghost predicate SameAnswer(a: Resolution, b: Resolution) {
    a == b || (a.Clarification? && b.Clarification? && a.code == b.code && a.surfaces == b.surfaces
               && forall x :: x in a.devices <==> x in b.devices)
  }

  lemma {:induction false} FindIsComplete(devices: seq<DirectoryDevice>, d: DirectoryDevice)
    requires d in devices
    ensures FindDevice(devices, d.id).Some?
  {
    if devices[0].id != d.id {
      FindIsComplete(devices[1..], d);
    }
  }

  lemma FindIgnoresOrder(a: seq<DirectoryDevice>, b: seq<DirectoryDevice>, id: DeviceId)
    requires multiset(a) == multiset(b) && UniqueDevices(a)
    ensures FindDevice(a, id) == FindDevice(b, id)
  {
    SameMembers(a, b);
    FoundIsMember(a, id);
    FoundIsMember(b, id);
    if FindDevice(a, id).Some? {
      FindIsComplete(b, FindDevice(a, id).value);
    } else if FindDevice(b, id).Some? {
      FindIsComplete(a, FindDevice(b, id).value);
    }
  }

  lemma SameMembers<T(!new)>(a: seq<T>, b: seq<T>)
    requires multiset(a) == multiset(b)
    ensures forall x :: x in a <==> x in b
    ensures |a| == |b|
  {
    assert forall x :: x in a <==> x in multiset(a);
    assert |multiset(a)| == |a| && |multiset(b)| == |b|;
  }

  lemma FilterIgnoresOrder<T(!new)>(a: seq<T>, b: seq<T>, p: T -> bool)
    requires multiset(a) == multiset(b)
    ensures multiset(Filter(a, p)) == multiset(Filter(b, p))
  {
    forall x ensures multiset(Filter(a, p))[x] == multiset(Filter(b, p))[x] {
      FilterCounts(a, p, x);
      FilterCounts(b, p, x);
    }
  }

  lemma IdsAreMembers(devices: seq<DirectoryDevice>)
    ensures forall x :: x in IdsOf(devices) <==> exists d :: d in devices && d.id == x
  {
    forall x | x in IdsOf(devices) ensures exists d :: d in devices && d.id == x {
      var i :| 0 <= i < |IdsOf(devices)| && IdsOf(devices)[i] == x;
      assert devices[i] in devices;
    }
    forall x | exists d :: d in devices && d.id == x ensures x in IdsOf(devices) {
      var d :| d in devices && d.id == x;
      var i :| 0 <= i < |devices| && devices[i] == d;
      assert IdsOf(devices)[i] == x;
    }
  }

  /** The same device, or failures that are the same answer. */
  ghost predicate SameChoice(a: Result<DirectoryDevice, Resolution>, b: Result<DirectoryDevice, Resolution>) {
    (a.Ok? && a == b) || (a.Err? && b.Err? && SameAnswer(a.error, b.error))
  }

  lemma ChooseOneIgnoresOrder(a: seq<DirectoryDevice>, b: seq<DirectoryDevice>)
    requires multiset(a) == multiset(b)
    ensures SameChoice(ChooseOne(a), ChooseOne(b))
  {
    SameMembers(a, b);
    if |a| == 1 {
      assert a[0] in b;
    } else {
      IdsAreMembers(a);
      IdsAreMembers(b);
      FirstOccurrencesIsExact(IdsOf(a));
      FirstOccurrencesIsExact(IdsOf(b));
    }
  }

  lemma AbsenceIgnoresOrder(a: seq<DirectoryDevice>, b: seq<DirectoryDevice>)
    requires multiset(a) == multiset(b) && UniqueDevices(a)
    ensures forall id :: AbsentCode(a, id) == AbsentCode(b, id)
  {
    forall id ensures AbsentCode(a, id) == AbsentCode(b, id) {
      FindIgnoresOrder(a, b, id);
    }
  }

  lemma PickIgnoresOrder(ctx: Context, a: seq<DirectoryDevice>, b: seq<DirectoryDevice>, target: IntentTarget,
                         fa: seq<DirectoryDevice>, fb: seq<DirectoryDevice>)
    requires forall id :: AbsentCode(a, id) == AbsentCode(b, id)
    requires |fa| == |fb| && SameChoice(ChooseOne(fa), ChooseOne(fb))
    ensures SameChoice(Pick(ctx, a, target, fa), Pick(ctx, b, target, fb))
  {
  }

  lemma ChoiceIgnoresOrder(ctx: Context, a: seq<DirectoryDevice>, b: seq<DirectoryDevice>, target: IntentTarget,
                           suits: DirectoryDevice -> bool)
    requires multiset(a) == multiset(b) && UniqueDevices(a)
    ensures SameChoice(Choose(ctx, a, target, suits), Choose(ctx, b, target, suits))
  {
    var fits := (d: DirectoryDevice) => Fits(ctx, target, suits, d);
    var fa, fb := Filter(a, fits), Filter(b, fits);
    assert SameChoice(ChooseOne(fa), ChooseOne(fb)) && |fa| == |fb| by {
      FilterIgnoresOrder(a, b, fits);
      ChooseOneIgnoresOrder(fa, fb);
      SameMembers(fa, fb);
    }
    AbsenceIgnoresOrder(a, b);
    PickIgnoresOrder(ctx, a, b, target, fa, fb);
    ChooseIsPick(ctx, a, target, suits);
    ChooseIsPick(ctx, b, target, suits);
  }

  lemma {:induction false} ReadingsOfDevice(d: DirectoryDevice, entities: seq<Entity>, sensor: Option<string>)
    ensures forall i :: 0 <= i < |ReadingsAmong(d, entities, sensor)| ==> ReadingsAmong(d, entities, sensor)[i].device == d
  {
    if entities != [] {
      ReadingsOfDevice(d, entities[..|entities| - 1], sensor);
    }
  }

  /** In a directory without repetition a reading is collected as often as its own device declares it. */
  lemma {:induction false} ReadingsCount(devices: seq<DirectoryDevice>, sensor: Option<string>, x: Reading)
    requires multiset(devices)[x.device] <= 1
    ensures multiset(Readings(devices, sensor))[x] ==
              if x.device in devices then multiset(ReadingsAmong(x.device, x.device.manifest.entities, sensor))[x] else 0
  {
    if devices != [] {
      var front := devices[..|devices| - 1];
      var d := devices[|devices| - 1];
      assert devices == front + [d];
      assert multiset(devices) == multiset(front) + multiset{d};
      ReadingsCount(front, sensor, x);
      ReadingsOfDevice(d, d.manifest.entities, sensor);
      if d != x.device {
        assert x !in multiset(ReadingsAmong(d, d.manifest.entities, sensor));
      } else {
        assert x.device !in multiset(front);
      }
    }
  }

  lemma ReadingsIgnoreOrder(a: seq<DirectoryDevice>, b: seq<DirectoryDevice>, sensor: Option<string>)
    requires multiset(a) == multiset(b) && forall d :: multiset(a)[d] <= 1
    ensures multiset(Readings(a, sensor)) == multiset(Readings(b, sensor))
  {
    SameMembers(a, b);
    forall x ensures multiset(Readings(a, sensor))[x] == multiset(Readings(b, sensor))[x] {
      ReadingsCount(a, sensor, x);
      ReadingsCount(b, sensor, x);
    }
  }

  lemma ReadingIdsAreMembers(readings: seq<Reading>)
    ensures forall x :: x in ReadingIds(readings) <==> exists r :: r in readings && r.device.id == x
  {
    forall x | x in ReadingIds(readings) ensures exists r :: r in readings && r.device.id == x {
      var i :| 0 <= i < |ReadingIds(readings)| && ReadingIds(readings)[i] == x;
      assert readings[i] in readings;
    }
    forall x | exists r :: r in readings && r.device.id == x ensures x in ReadingIds(readings) {
      var r :| r in readings && r.device.id == x;
      var i :| 0 <= i < |readings| && readings[i] == r;
      assert ReadingIds(readings)[i] == x;
    }
  }

  lemma QueryIgnoresOrder(ctx: Context, a: seq<DirectoryDevice>, b: seq<DirectoryDevice>, sensor: Option<string>, target: IntentTarget)
    requires multiset(a) == multiset(b) && UniqueDevices(a)
    ensures SameAnswer(AnswerQuery(ctx, a, sensor, target), AnswerQuery(ctx, b, sensor, target))
  {
    var suits := (d: DirectoryDevice) => QuerySuits(d);
    var near := (d: DirectoryDevice) => InArea(ctx, target, d);
    var ca, cb := CompatibleDevices(ctx, a, target, suits), CompatibleDevices(ctx, b, target, suits);
    FilterIgnoresOrder(a, b, suits);
    FilterIgnoresOrder(Filter(a, suits), Filter(b, suits), near);
    forall d ensures multiset(ca)[d] <= 1 {
      FilterCounts(a, suits, d);
      FilterCounts(Filter(a, suits), near, d);
    }
    ReadingsIgnoreOrder(ca, cb, sensor);
    SameReadingsSameAnswer(ctx, Readings(ca, sensor), Readings(cb, sensor));
  }

  lemma SameReadingsSameAnswer(ctx: Context, ra: seq<Reading>, rb: seq<Reading>)
    requires multiset(ra) == multiset(rb)
    ensures |ra| == |rb| && (|ra| == 1 ==> ra == rb)
    ensures forall x :: x in FirstOccurrences(ReadingIds(ra)) <==> x in FirstOccurrences(ReadingIds(rb))
  {
    SameMembers(ra, rb);
    if |ra| == 1 {
      assert ra[0] in rb;
    }
    ReadingIdsAreMembers(ra);
    ReadingIdsAreMembers(rb);
    FirstOccurrencesIsExact(ReadingIds(ra));
    FirstOccurrencesIsExact(ReadingIds(rb));
  }

  /** A sensor query ignores an explicit device or surface, and an area that is not known. */
  lemma {:induction false} SensorQueryIgnoresSelectors(ctx: Context, devices: seq<DirectoryDevice>, sensor: Option<string>, target: IntentTarget)
    requires ValidateIntent(QuerySensor(sensor, Some(target))).Pass?
    ensures var kept := IntentTarget(None, None, if AreaOf(ctx, target).Some? then target.area else None);
            Resolve(ctx, devices, QuerySensor(sensor, Some(target))) == Resolve(ctx, devices, QuerySensor(sensor, Some(kept)))
  {
    var kept := IntentTarget(None, None, if AreaOf(ctx, target).Some? then target.area else None);
    var suits := (d: DirectoryDevice) => QuerySuits(d);
    SameFilter(Filter(devices, suits), d => InArea(ctx, target, d), d => InArea(ctx, kept, d));
  }

  lemma {:induction false} FilterConcat<T>(a: seq<T>, b: seq<T>, p: T -> bool)
    ensures Filter(a + b, p) == Filter(a, p) + Filter(b, p)
  {
    if a == [] {
      assert a + b == b;
    } else {
      var first := if p(a[0]) then [a[0]] else [];
      FilterConcat(a[1..], b, p);
      assert (a + b)[0] == a[0] && (a + b)[1..] == a[1..] + b;
      assert Filter(a + b, p) == first + Filter(a[1..] + b, p);
      Regroup(first, Filter(a[1..], p), Filter(b, p));
    }
  }

  lemma Regroup<T>(a: seq<T>, b: seq<T>, c: seq<T>)
    ensures a + (b + c) == (a + b) + c
  {
  }

  lemma {:induction false} FilterUniform<T>(xs: seq<T>, p: T -> bool, keep: bool)
    requires forall i :: 0 <= i < |xs| ==> p(xs[i]) == keep
    ensures Filter(xs, p) == if keep then xs else []
  {
    if xs != [] {
      FilterUniform(xs[1..], p, keep);
    }
  }

  lemma FiltersCommute<T(!new)>(xs: seq<T>, p: T -> bool, q: T -> bool)
    ensures Filter(Filter(xs, p), q) == Filter(Filter(xs, q), p)
  {
    FilterTwice(xs, p, q, x => p(x) && q(x));
    FilterTwice(xs, q, p, x => p(x) && q(x));
  }

  predicate IsDevice(d: DirectoryDevice, id: DeviceId) {
    d.id == id
  }

  /** The part of the directory that is one device. */
  function PartOf(devices: seq<DirectoryDevice>, id: DeviceId): seq<DirectoryDevice> {
    Filter(devices, d => IsDevice(d, id))
  }

  predicate OfDevice(x: Reading, id: DeviceId) {
    x.device.id == id
  }

  /** The readings of one device's part of the directory are the readings of the directory that belong to it. */
  lemma {:induction false} ReadingsOfPart(devices: seq<DirectoryDevice>, sensor: Option<string>, id: DeviceId)
    ensures Readings(PartOf(devices, id), sensor) == Filter(Readings(devices, sensor), x => OfDevice(x, id))
  {
    if devices != [] {
      var front := devices[..|devices| - 1];
      var d := devices[|devices| - 1];
      var own := ReadingsAmong(d, d.manifest.entities, sensor);
      ReadingsOfPart(front, sensor, id);
      FilterConcat(front, [d], x => IsDevice(x, id));
      assert devices == front + [d];
      FilterConcat(Readings(front, sensor), own, x => OfDevice(x, id));
      ReadingsOfDevice(d, d.manifest.entities, sensor);
      FilterUniform(own, x => OfDevice(x, id), d.id == id);
      var part := PartOf(front, id);
      assert Filter([d], x => IsDevice(x, id)) == if d.id == id then [d] else [];
      assert (part + [d])[..|part|] == part;
      assert part + [] == part;
    }
  }

  /** The readings a query chooses among: of online devices in the area, whatever device it names. */
  function QueryReadings(ctx: Context, devices: seq<DirectoryDevice>, sensor: Option<string>, target: IntentTarget): seq<Reading> {
    Readings(CompatibleDevices(ctx, devices, target, d => QuerySuits(d)), sensor)
  }

  lemma QueryReadingsOfPart(ctx: Context, devices: seq<DirectoryDevice>, sensor: Option<string>, target: IntentTarget, id: DeviceId)
    ensures QueryReadings(ctx, PartOf(devices, id), sensor, target)
            == Filter(QueryReadings(ctx, devices, sensor, target), x => OfDevice(x, id))
  {
    var suits := (d: DirectoryDevice) => QuerySuits(d);
    var near := (d: DirectoryDevice) => InArea(ctx, target, d);
    var named := (d: DirectoryDevice) => IsDevice(d, id);
    FiltersCommute(devices, suits, named);
    FiltersCommute(Filter(devices, suits), near, named);
    ReadingsOfPart(CompatibleDevices(ctx, devices, target, suits), sensor, id);
  }

  /** The answer that a list of readings leads to. */
  function AnswerFrom(ctx: Context, readings: seq<Reading>): Resolution {
    if readings == [] then Clarification(MissingTarget, [], [])
    else if |readings| != 1 then Clarification(AmbiguousEntity, FirstOccurrences(ReadingIds(readings)), [])
    else AnswerReading(ctx, readings[0])
  }

  lemma QueryIsAnswered(ctx: Context, devices: seq<DirectoryDevice>, sensor: Option<string>, target: IntentTarget)
    requires ValidateIntent(QuerySensor(sensor, Some(target))).Pass? && ctx.user == ctx.owner && EntityStateRead in ctx.scopes
    ensures Resolve(ctx, devices, QuerySensor(sensor, Some(target))) == AnswerFrom(ctx, QueryReadings(ctx, devices, sensor, target))
  {
  }

  lemma {:induction false} FilterIsNoLonger<T>(xs: seq<T>, p: T -> bool)
    ensures |Filter(xs, p)| <= |xs|
    ensures |Filter(xs, p)| == |xs| ==> forall i :: 0 <= i < |xs| ==> p(xs[i])
  {
    if xs != [] {
      FilterIsNoLonger(xs[1..], p);
      assert forall i :: 0 < i < |xs| ==> xs[i] == xs[1..][i - 1];
    }
  }

  lemma FilterMembers<T(!new)>(xs: seq<T>, p: T -> bool, x: T)
    ensures x in Filter(xs, p) <==> x in xs && p(x)
  {
    FilterCounts(xs, p, x);
    assert x in xs <==> x in multiset(xs);
    assert x in Filter(xs, p) <==> x in multiset(Filter(xs, p));
  }

  /** Dropping some readings always changes the answer if one of another device is among them. */
  lemma AnswersTellApart(ctx: Context, readings: seq<Reading>, id: DeviceId)
    requires exists x :: x in readings && !OfDevice(x, id)
    ensures AnswerFrom(ctx, readings) != AnswerFrom(ctx, Filter(readings, x => OfDevice(x, id)))
  {
    var mine := (x: Reading) => OfDevice(x, id);
    var part := Filter(readings, mine);
    var other :| other in readings && !OfDevice(other, id);
    FilterMembers(readings, mine, other);
    FilterIsNoLonger(readings, mine);
    if |part| >= 2 {
      ReadingIdsAreMembers(readings);
      ReadingIdsAreMembers(part);
      FirstOccurrencesIsExact(ReadingIds(readings));
      FirstOccurrencesIsExact(ReadingIds(part));
      assert other.device.id in FirstOccurrences(ReadingIds(readings));
      forall x | x in ReadingIds(part) ensures x == id {
        var y :| y in part && y.device.id == x;
        FilterMembers(readings, mine, y);
      }
    }
  }

  /**
   * The documented narrowing of a sensor query that names a device: its answer is the answer of that device's part of
   * the directory if and only if every reading of the online devices in the area already belongs to that device.
   */
  lemma {:induction false} QueryNarrowsIff(ctx: Context, devices: seq<DirectoryDevice>, sensor: Option<string>, target: IntentTarget, id: DeviceId)
    requires target.device == Some(id) && ValidateIntent(QuerySensor(sensor, Some(target))).Pass?
    requires ctx.user == ctx.owner && EntityStateRead in ctx.scopes
    ensures var q := QuerySensor(sensor, Some(target));
            Resolve(ctx, devices, q) == Resolve(ctx, PartOf(devices, id), q)
            <==> forall x :: x in QueryReadings(ctx, devices, sensor, target) ==> OfDevice(x, id)
  {
    var readings := QueryReadings(ctx, devices, sensor, target);
    QueryIsAnswered(ctx, devices, sensor, target);
    QueryIsAnswered(ctx, PartOf(devices, id), sensor, target);
    QueryReadingsOfPart(ctx, devices, sensor, target, id);
    if forall x :: x in readings ==> OfDevice(x, id) {
      FilterUniform(readings, x => OfDevice(x, id), true);
    } else {
      AnswersTellApart(ctx, readings, id);
    }
  }

  /** A device with one readable sensor and its state, and one with nothing. */
  function Thermometer(): DirectoryDevice {
    DirectoryDevice(0, Manifest([], [], [Entity("room.t", SensorDomain, "temperature", "T", true, false, None, [], None, None)], []),
                    true, None, [EntityState("room.t", Int(20), None, GoodQuality, true, 0)])
  }

  function Bystander(): DirectoryDevice {
    DirectoryDevice(1, Manifest([], [], [], []), true, None, [])
  }

  /** A query that names device 1 is answered with the sensor of device 0, though device 1 alone has none to offer. */
  lemma {:induction false} QueryMissesItsDevice(ctx: Context)
    requires ctx.user == ctx.owner && EntityStateRead in ctx.scopes && ctx.receivedAt == 0
    requires 1 <= |ctx.wording(Thermometer().manifest.entities[0], Int(20), None, GoodQuality, Fresh)| <= 1024
    ensures var q := QuerySensor(None, Some(IntentTarget(Some(1), None, None)));
            var devices := [Thermometer(), Bystander()];
            && Resolve(ctx, devices, q)
               == Plan(Some(Text(ctx.wording(Thermometer().manifest.entities[0], Int(20), None, GoodQuality, Fresh))), [])
            && Resolve(ctx, PartOf(devices, 1), q) == Clarification(MissingTarget, [], [])
  {
    var t, b := Thermometer(), Bystander();
    var target := IntentTarget(Some(1), None, None);
    PartOfPair(t, b);
    QueryIsAnswered(ctx, [t, b], None, target);
    QueryIsAnswered(ctx, [b], None, target);
    WitnessReadings(ctx, target);
    assert StateFor(t.entityStates, t.manifest.entities[0].id) == Some(t.entityStates[0]);
  }

  lemma WitnessReadings(ctx: Context, target: IntentTarget)
    requires target.area.None?
    ensures QueryReadings(ctx, [Thermometer(), Bystander()], None, target) == [Reading(Thermometer(), Thermometer().manifest.entities[0])]
    ensures QueryReadings(ctx, [Bystander()], None, target) == []
  {
    var t, b := Thermometer(), Bystander();
    var e := t.manifest.entities[0];
    FilterOne(e, ReadableSensor);
    assert QuerySuits(t) && !QuerySuits(b);
    var suits := (d: DirectoryDevice) => QuerySuits(d);
    FilterPair(t, b, suits);
    FilterOne(t, d => InArea(ctx, target, d));
    assert CompatibleDevices(ctx, [t, b], target, suits) == [t];
    OneReading(t, e);
    FilterOne(b, suits);
    assert CompatibleDevices(ctx, [b], target, suits) == [];
  }

  lemma PartOfPair(t: DirectoryDevice, b: DirectoryDevice)
    requires t.id != b.id
    ensures PartOf([t, b], b.id) == [b]
  {
    FilterPair(t, b, d => IsDevice(d, b.id));
  }

  lemma OneReading(d: DirectoryDevice, e: Entity)
    requires d.manifest.entities == [e] && ReadableSensor(e)
    ensures Readings([d], None) == [Reading(d, e)]
  {
    assert [e][..0] == [] && [d][..0] == [];
    assert ReadingsAmong(d, [e], None) == [Reading(d, e)];
  }

  lemma FilterOne<T>(x: T, p: T -> bool)
    ensures Filter([x], p) == if p(x) then [x] else []
  {
  }

  lemma FilterPair<T>(x: T, y: T, p: T -> bool)
    ensures Filter([x, y], p) == (if p(x) then [x] else []) + (if p(y) then [y] else [])
  {
    assert [x, y][1..] == [y];
    FilterOne(y, p);
  }

  lemma {:induction false} SameFilter<T(!new)>(xs: seq<T>, p: T -> bool, q: T -> bool)
    requires forall x :: p(x) <==> q(x)
    ensures Filter(xs, p) == Filter(xs, q)
  {
    if xs != [] {
      SameFilter(xs[1..], p, q);
    }
  }

  /** Permuting the directory never changes a plan, a confirmation or an error, and only reorders a question's candidates. */
  lemma {:induction false} ResolutionIgnoresOrder(ctx: Context, a: seq<DirectoryDevice>, b: seq<DirectoryDevice>, intent: UserIntent)
    requires multiset(a) == multiset(b) && UniqueDevices(a)
    ensures SameAnswer(Resolve(ctx, a, intent), Resolve(ctx, b, intent))
  {
    if intent.Actuate? {
      FindIgnoresOrder(a, b, intent.device);
    } else if intent.QuerySensor? {
      QueryIgnoresOrder(ctx, a, b, intent.sensor, Selector(intent.target));
    } else {
      ChoiceIgnoresOrder(ctx, a, b, Selector(intent.target), d => Suits(intent, d));
    }
  }
}
