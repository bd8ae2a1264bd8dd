/** The wire form of a command body: a JSON object written by one function and read back by another. */
module CommandCodec {
  import opened Common
  import opened DeviceModel

  datatype DecodeError =
    | NotAnObject
    | MissingName
    | Missing(field: string)
    | Mistyped(field: string)
    | InvalidSource
    | InvalidStationEcho
    | InvalidStationPresentation
    | InvalidView
    | NotNamespaced

  type Fields = map<string, Json>

  // ---- Names -----------------------------------------------------------------------------------------------

  const PLAYBACK := "playback."

  predicate LowerCase(c: char) {
    'a' <= c <= 'z'
  }

  /** One dotted part: a lower-case letter, then lower-case letters, digits and underscores. */
  predicate NamePart(s: string) {
    s != [] && LowerCase(s[0]) && forall i :: 0 < i < |s| ==> LowerCase(s[i]) || '0' <= s[i] <= '9' || s[i] == '_'
  }

  /** The dot-separated parts; there is always at least one. */
  function Parts(s: string): (parts: seq<string>)
    ensures |parts| > 0
  {
    if s == [] then [[]]
    else
      var rest := Parts(s[1..]);
      if s[0] == '.' then [[]] + rest else [[s[0]] + rest[0]] + rest[1..]
  }

  predicate Namespaced(name: string) {
    |Parts(name)| >= 2 && |name| <= 96 && forall i :: 0 <= i < |Parts(name)| ==> NamePart(Parts(name)[i])
  }

  /** Strips the prefix as often as it occurs. */
  function TrimStart(s: string, prefix: string): string
    requires prefix != []
  {
    if prefix <= s then TrimStart(s[|prefix|..], prefix) else s
  }

  datatype Kind =
    | StationName | StreamName | TextName | ViewName | PlaybackName(action: string)
    | LevelName | DeltaName | MuteName | OnName | OffName | ValueName | ExtensionName

  /** The reader's dispatch on the command name, in its order. */
  function KindOf(name: string): Kind {
    match name
    case "station.play_station" => StationName
    case "station.play_stream" => StreamName
    case "display.show_text" => TextName
    case "display.show_view" => ViewName
    case _ =>
      if PLAYBACK <= name then PlaybackName(TrimStart(name, PLAYBACK))
      else match name
        case "volume.set_volume" => LevelName
        case "volume.change_volume" => DeltaName
        case "volume.set_mute" => MuteName
        case "entity.turn_on" => OnName
        case "entity.turn_off" => OffName
        case "entity.set_value" => ValueName
        case _ => ExtensionName
  }

  // ---- Writing ---------------------------------------------------------------------------------------------

  function OrNull(s: Option<string>): Json {
    if s.Some? then Str(s.value) else Null
  }

  /** Only finite numbers have a JSON form. */
  function NumberOrNull(v: Option<Float>): Json {
    if v.Some? && v.value.Finite? then Frac(v.value.value) else Null
  }

  function QualityText(q: Quality): string {
    match q
    case GoodQuality => "ok"
    case DegradedQuality => "degraded"
    case UnavailableQuality => "unavailable"
    case UnknownQuality => "unknown"
  }

  function FreshnessText(f: Freshness): string {
    match f
    case Fresh => "fresh"
    case Stale => "stale"
    case UnknownFreshness => "unknown"
  }

  function EncodeCard(c: SensorCard): Json {
    Obj(map["entity_id" := Str(c.entity), "label" := Str(c.title), "value" := c.value, "unit" := OrNull(c.unit),
            "quality" := Str(QualityText(c.quality)), "freshness" := Str(FreshnessText(c.freshness))])
  }

  function EncodeCards(cards: seq<SensorCard>): seq<Json> {
    if cards == [] then [] else [EncodeCard(cards[0])] + EncodeCards(cards[1..])
  }

  function SourceText(source: StreamSource): string {
    if source == RockserverCatalog then CATALOG_STATION_SOURCE else DIRECT_STATION_SOURCE
  }

  function EncodeStream(source: StreamSource, echo: Option<string>, station: Option<StationPresentation>, uri: string): Fields {
    map["name" := Str("station.play_stream"), "source" := Str(SourceText(source)), "stream_uri" := Str(uri)]
    + (if echo.Some? then map["station_id" := Str(echo.value)] else map[])
    + (if station.Some?
       then map["station" := Obj(map["name" := Str(station.value.name), "icon_url" := OrNull(station.value.iconUrl)])]
       else map[])
  }

  function EncodePresentation(p: Presentation): Fields {
    match p
    case Text(text) => map["name" := Str("display.show_text"), "text" := Str(text)]
    case NowPlaying(station, title, subtitle) =>
      map["name" := Str("display.show_view"), "view" := Str("now_playing"), "station_id" := Str(station),
          "title" := Str(title), "subtitle" := OrNull(subtitle)]
    case SensorGrid(title, items) =>
      map["name" := Str("display.show_view"), "view" := Str("sensor_grid"), "title" := Str(title),
          "items" := Arr(EncodeCards(items))]
  }

  function Encode(body: CommandBody): Fields {
    match body
    case PlayStation(id) => map["name" := Str("station.play_station"), "station_id" := Str(id)]
    case PlayStream(source, echo, station, uri) => EncodeStream(source, echo, station, uri)
    case Playback(action) => map["name" := Str(PLAYBACK + action)]
    case Volume(SetLevel(level)) => map["name" := Str("volume.set_volume"), "level" := Int(level)]
    case Volume(Change(delta)) => map["name" := Str("volume.change_volume"), "delta" := Int(delta)]
    case Volume(SetMute(muted)) => map["name" := Str("volume.set_mute"), "muted" := Bool(muted)]
    case Actuator(TurnOn, _) => map["name" := Str("entity.turn_on")]
    case Actuator(TurnOff, _) => map["name" := Str("entity.turn_off")]
    case Actuator(SetValue, v) => map["name" := Str("entity.set_value"), "value" := NumberOrNull(v)]
    case Display(p) => EncodePresentation(p)
    case Unknown(_, payload) => payload
  }

  // ---- Reading ---------------------------------------------------------------------------------------------

  function Get(m: Fields, field: string): Result<Json, DecodeError> {
    if field in m then Ok(m[field]) else Err(Missing(field))
  }

  function AsText(j: Json, field: string): Result<string, DecodeError> {
    if j.Str? then Ok(j.s) else Err(Mistyped(field))
  }

  function TextAt(m: Fields, field: string): Result<string, DecodeError> {
    var j :- Get(m, field);
    AsText(j, field)
  }

  /** An optional member of a record: absent and null both mean none. */
  function OptionalText(j: Json, field: string): Result<Option<string>, DecodeError> {
    if j.Null? then Ok(None) else if j.Str? then Ok(Some(j.s)) else Err(Mistyped(field))
  }

  function OptionalTextAt(m: Fields, field: string): Result<Option<string>, DecodeError> {
    if field in m then OptionalText(m[field], field) else Ok(None)
  }

  /** A plain string or absent: here null is not accepted. */
  function TextIfPresent(m: Fields, field: string): Result<Option<string>, DecodeError> {
    if field !in m then Ok(None)
    else
      var s :- AsText(m[field], field);
      Ok(Some(s))
  }

  /** A unit variant is written as its name and also read from an object mapping the name to null. */
  predicate Names(j: Json, name: string) {
    j == Str(name) || j == Obj(map[name := Null])
  }

  function AsQuality(j: Json): Result<Quality, DecodeError> {
    if Names(j, "ok") then Ok(GoodQuality)
    else if Names(j, "degraded") then Ok(DegradedQuality)
    else if Names(j, "unavailable") then Ok(UnavailableQuality)
    else if Names(j, "unknown") then Ok(UnknownQuality)
    else Err(Mistyped("quality"))
  }

  function AsFreshness(j: Json): Result<Freshness, DecodeError> {
    if Names(j, "fresh") then Ok(Fresh)
    else if Names(j, "stale") then Ok(Stale)
    else if Names(j, "unknown") then Ok(UnknownFreshness)
    else Err(Mistyped("freshness"))
  }

  /** Members by name, other members ignored. */
  function CardFromFields(m: Fields): Result<SensorCard, DecodeError> {
    var entity :- TextAt(m, "entity_id");
    var title :- TextAt(m, "label");
    var value :- Get(m, "value");
    var unit :- OptionalTextAt(m, "unit");
    var q :- Get(m, "quality");
    var quality :- AsQuality(q);
    var f :- Get(m, "freshness");
    var freshness :- AsFreshness(f);
    Ok(SensorCard(entity, title, value, unit, quality, freshness))
  }

  /** Members by position, none missing and none extra. */
  function CardFromItems(items: seq<Json>): Result<SensorCard, DecodeError> {
    if |items| != 6 then Err(Mistyped("items"))
    else
      var entity :- AsText(items[0], "entity_id");
      var title :- AsText(items[1], "label");
      var unit :- OptionalText(items[3], "unit");
      var quality :- AsQuality(items[4]);
      var freshness :- AsFreshness(items[5]);
      Ok(SensorCard(entity, title, items[2], unit, quality, freshness))
  }

  function DecodeCard(j: Json): Result<SensorCard, DecodeError> {
    if j.Obj? then CardFromFields(j.fields)
    else if j.Arr? then CardFromItems(j.items)
    else Err(Mistyped("items"))
  }

  function DecodeCards(items: seq<Json>): Result<seq<SensorCard>, DecodeError> {
    if items == [] then Ok([])
    else
      var card :- DecodeCard(items[0]);
      var rest :- DecodeCards(items[1..]);
      Ok([card] + rest)
  }

  /** A station presentation: unlike a card, unknown members are refused. */
  function DecodeStation(j: Json): Result<StationPresentation, DecodeError> {
    if j.Obj? && j.fields.Keys <= {"name", "icon_url"} then
      var name :- TextAt(j.fields, "name");
      var icon :- OptionalTextAt(j.fields, "icon_url");
      Ok(StationPresentation(name, icon))
    else if j.Arr? && |j.items| == 2 then
      var name :- AsText(j.items[0], "name");
      var icon :- OptionalText(j.items[1], "icon_url");
      Ok(StationPresentation(name, icon))
    else Err(Mistyped("station"))
  }

  function DecodeCatalogStream(m: Fields): Result<CommandBody, DecodeError> {
    var id :- TextAt(m, "station_id");
    if "station" !in m then
      var uri :- TextAt(m, "stream_uri");
      Ok(PlayStream(RockserverCatalog, Some(id), None, uri))
    else
      var station :- DecodeStation(m["station"]);
      var uri :- TextAt(m, "stream_uri");
      Ok(PlayStream(RockserverCatalog, Some(id), Some(station), uri))
  }

  function DecodeStream(m: Fields): Result<CommandBody, DecodeError> {
    if "source" in m && m["source"] == Str(CATALOG_STATION_SOURCE) then DecodeCatalogStream(m)
    else if "source" in m && m["source"] == Str(DIRECT_STATION_SOURCE) then
      if "station_id" in m then Err(InvalidStationEcho)
      else if "station" in m then Err(InvalidStationPresentation)
      else
        var uri :- TextAt(m, "stream_uri");
        Ok(PlayStream(DirectStream, None, None, uri))
    else Err(InvalidSource)
  }

  function DecodeView(m: Fields): Result<CommandBody, DecodeError> {
    if "view" in m && m["view"] == Str("sensor_grid") then
      var title :- TextAt(m, "title");
      var j :- Get(m, "items");
      if !j.Arr? then Err(Mistyped("items"))
      else
        var items :- DecodeCards(j.items);
        Ok(Display(SensorGrid(title, items)))
    else if "view" in m && m["view"] == Str("now_playing") then
      var id :- TextAt(m, "station_id");
      var title :- TextAt(m, "title");
      var subtitle :- TextIfPresent(m, "subtitle");
      Ok(Display(NowPlaying(id, title, subtitle)))
    else Err(InvalidView)
  }

  function DecodeVolume(m: Fields, kind: Kind): Result<CommandBody, DecodeError> {
    match kind
    case LevelName =>
      var j :- Get(m, "level");
      if j.Int? && 0 <= j.i < 256 then Ok(Volume(SetLevel(j.i))) else Err(Mistyped("level"))
    case DeltaName =>
      var j :- Get(m, "delta");
      if j.Int? && -128 <= j.i < 128 then Ok(Volume(Change(j.i))) else Err(Mistyped("delta"))
    case _ =>
      var j :- Get(m, "muted");
      if j.Bool? then Ok(Volume(SetMute(j.b))) else Err(Mistyped("muted"))
  }

  function DecodeSetPoint(m: Fields): Result<CommandBody, DecodeError> {
    var j :- Get(m, "value");
    if j.Frac? then Ok(Actuator(SetValue, Some(Finite(j.x))))
    else if j.Int? then Ok(Actuator(SetValue, Some(Finite(j.i as real))))
    else Err(Mistyped("value"))
  }

  function DecodeNamed(m: Fields, name: string): Result<CommandBody, DecodeError> {
    match KindOf(name)
    case StationName => var id :- TextAt(m, "station_id"); Ok(PlayStation(id))
    case StreamName => DecodeStream(m)
    case TextName => var text :- TextAt(m, "text"); Ok(Display(Text(text)))
    case ViewName => DecodeView(m)
    case PlaybackName(action) => Ok(Playback(action))
    case LevelName => DecodeVolume(m, LevelName)
    case DeltaName => DecodeVolume(m, DeltaName)
    case MuteName => DecodeVolume(m, MuteName)
    case OnName => Ok(Actuator(TurnOn, None))
    case OffName => Ok(Actuator(TurnOff, None))
    case ValueName => DecodeSetPoint(m)
    case ExtensionName => if Namespaced(name) then Ok(Unknown(name, m)) else Err(NotNamespaced)
  }

  function Decode(j: Json): Result<CommandBody, DecodeError> {
    if !j.Obj? then Err(NotAnObject)
    else if !("name" in j.fields && j.fields["name"].Str?) then Err(MissingName)
    else DecodeNamed(j.fields, j.fields["name"].s)
  }

  lemma OtherInitial(name: string)
    requires name != [] && name[0] != 'p'
    ensures !(PLAYBACK <= name)
  {
    assert PLAYBACK[0] == 'p';
  }

  lemma KnownNames()
    ensures KindOf("volume.set_volume") == LevelName && KindOf("volume.change_volume") == DeltaName
    ensures KindOf("volume.set_mute") == MuteName && KindOf("entity.turn_on") == OnName
    ensures KindOf("entity.turn_off") == OffName && KindOf("entity.set_value") == ValueName
  {
    OtherInitial("volume.set_volume");
    OtherInitial("volume.change_volume");
    OtherInitial("volume.set_mute");
    OtherInitial("entity.turn_on");
    OtherInitial("entity.turn_off");
    OtherInitial("entity.set_value");
  }

  // ---- Round trips -----------------------------------------------------------------------------------------

  /** The bodies that survive being written and read. */
  predicate Survives(body: CommandBody) {
    match body
    case PlayStation(_) => true
    case PlayStream(RockserverCatalog, echo, _, _) => echo.Some?
    case PlayStream(DirectStream, echo, station, _) => echo.None? && station.None?
    case Display(NowPlaying(_, _, subtitle)) => subtitle.Some?
    case Display(_) => true
    case Playback(action) => !(PLAYBACK <= action)
    case Volume(_) => true
    case Actuator(SetValue, v) => v.Some? && v.value.Finite?
    case Actuator(_, v) => v.None?
    case Unknown(name, payload) =>
      "name" in payload && payload["name"] == Str(name) && Namespaced(name) && KindOf(name) == ExtensionName
  }

  lemma CardRoundTrips(c: SensorCard)
    ensures DecodeCard(EncodeCard(c)) == Ok(c)
  {
    var m := EncodeCard(c).fields;
    assert m["entity_id"] == Str(c.entity) && m["label"] == Str(c.title) && m["value"] == c.value;
    assert m["unit"] == OrNull(c.unit) && m["quality"] == Str(QualityText(c.quality));
    assert m["freshness"] == Str(FreshnessText(c.freshness));
    assert AsQuality(m["quality"]) == Ok(c.quality);
    assert AsFreshness(m["freshness"]) == Ok(c.freshness);
  }

  lemma {:induction false} CardsRoundTrip(cards: seq<SensorCard>)
    ensures DecodeCards(EncodeCards(cards)) == Ok(cards)
  {
    if cards != [] {
      CardRoundTrips(cards[0]);
      CardsRoundTrip(cards[1..]);
      assert EncodeCards(cards)[1..] == EncodeCards(cards[1..]);
      assert [cards[0]] + cards[1..] == cards;
    }
  }

  lemma StreamRoundTripIsExact(source: StreamSource, echo: Option<string>, station: Option<StationPresentation>, uri: string)
    ensures DecodeStream(EncodeStream(source, echo, station, uri)) == Ok(PlayStream(source, echo, station, uri))
      <==> Survives(PlayStream(source, echo, station, uri))
  {
    var m := EncodeStream(source, echo, station, uri);
    assert m["source"] == Str(SourceText(source)) && m["stream_uri"] == Str(uri);
    assert "station_id" in m <==> echo.Some?;
    assert "station" in m <==> station.Some?;
    if station.Some? {
      assert m["station"].fields["name"] == Str(station.value.name);
      assert DecodeStation(m["station"]) == Ok(station.value);
    }
  }

  lemma GridReads(m: Fields, title: string, cards: seq<Json>, items: seq<SensorCard>)
    requires "name" in m && m["name"] == Str("display.show_view") && "view" in m && m["view"] == Str("sensor_grid")
    requires "title" in m && m["title"] == Str(title) && "items" in m && m["items"] == Arr(cards)
    requires DecodeCards(cards) == Ok(items)
    ensures Decode(Obj(m)) == Ok(Display(SensorGrid(title, items)))
  {
    assert KindOf("display.show_view") == ViewName;
  }

  lemma GridRoundTrips(title: string, items: seq<SensorCard>)
    ensures Decode(Obj(EncodePresentation(SensorGrid(title, items)))) == Ok(Display(SensorGrid(title, items)))
  {
    var cards := EncodeCards(items);
    var m := map["name" := Str("display.show_view"), "view" := Str("sensor_grid"), "title" := Str(title), "items" := Arr(cards)];
    assert m["name"] == Str("display.show_view") && m["view"] == Str("sensor_grid");
    assert m["title"] == Str(title) && m["items"] == Arr(cards);
    CardsRoundTrip(items);
    GridReads(m, title, cards, items);
  }

  lemma NowPlayingRoundTripIsExact(station: string, title: string, subtitle: Option<string>)
    ensures Decode(Obj(EncodePresentation(NowPlaying(station, title, subtitle))))
      == if subtitle.Some? then Ok(Display(NowPlaying(station, title, subtitle))) else Err(Mistyped("subtitle"))
  {
    var m := EncodePresentation(NowPlaying(station, title, subtitle));
    assert m["name"] == Str("display.show_view") && m["view"] == Str("now_playing");
    assert m["title"] == Str(title) && m["station_id"] == Str(station) && m["subtitle"] == OrNull(subtitle);
  }

  lemma PresentationRoundTripIsExact(p: Presentation)
    ensures Decode(Obj(EncodePresentation(p))) == Ok(Display(p)) <==> Survives(Display(p))
  {
    match p
    case SensorGrid(title, items) => GridRoundTrips(title, items);
    case NowPlaying(station, title, subtitle) => NowPlayingRoundTripIsExact(station, title, subtitle);
    case Text(_) =>
  }

  lemma {:induction false} TrimEnds(s: string, prefix: string)
    requires prefix != []
    ensures !(prefix <= TrimStart(s, prefix)) && |TrimStart(s, prefix)| <= |s|
    ensures prefix <= s ==> |TrimStart(s, prefix)| < |s|
  {
    if prefix <= s {
      TrimEnds(s[|prefix|..], prefix);
    }
  }

  /** A playback action comes back unless it repeats the prefix, which the reader strips as often as it occurs. */
  lemma PlaybackRoundTripIsExact(action: string)
    ensures KindOf(PLAYBACK + action).PlaybackName?
    ensures KindOf(PLAYBACK + action).action == action <==> !(PLAYBACK <= action)
  {
    var name := PLAYBACK + action;
    assert name[0] == 'p' && PLAYBACK <= name && name[|PLAYBACK|..] == action;
    TrimEnds(action, PLAYBACK);
  }

  /** Only a namespaced name that no known command uses is read as an opaque extension, and it keeps its payload. */
  lemma ExtensionReadIsExact(m: Fields, name: string)
    ensures var r := DecodeNamed(m, name);
      r.Ok? && r.value.Unknown? <==> KindOf(name) == ExtensionName && Namespaced(name)
    ensures var r := DecodeNamed(m, name);
      r.Ok? && r.value.Unknown? ==> r.value == Unknown(name, m)
  {
    match KindOf(name)
    case StreamName => StreamReadIsStream(m);
    case ViewName => ViewReadIsDisplay(m);
    case _ =>
  }

  lemma StreamReadIsStream(m: Fields)
    ensures DecodeStream(m).Ok? ==> DecodeStream(m).value.PlayStream? && Survives(DecodeStream(m).value)
  {
    if DecodeCatalogStream(m).Ok? {
      assert DecodeCatalogStream(m).value.PlayStream? && DecodeCatalogStream(m).value.echo.Some?;
    }
  }

  lemma ViewReadIsDisplay(m: Fields)
    ensures DecodeView(m).Ok? ==> DecodeView(m).value.Display?
  {
  }

  lemma ActuatorRoundTripIsExact(body: CommandBody)
    requires body.Actuator?
    ensures Decode(Obj(Encode(body))) == Ok(body) <==> Survives(body)
  {
    KnownNames();
    var m := Encode(body);
    match body.actuator
    case SetValue => assert m["name"] == Str("entity.set_value") && m["value"] == NumberOrNull(body.value);
    case _ =>
  }

  lemma VolumeRoundTrips(body: CommandBody)
    requires body.Volume?
    ensures Decode(Obj(Encode(body))) == Ok(body)
  {
    KnownNames();
    match body.command
    case SetLevel(level) => assert Encode(body)["level"] == Int(level);
    case Change(delta) => assert Encode(body)["delta"] == Int(delta);
    case SetMute(muted) => assert Encode(body)["muted"] == Bool(muted);
  }

  /** For every body, valid or not: reading back what was written gives it back exactly when the body survives. */
  lemma RoundTripIsExact(body: CommandBody)
    ensures Decode(Obj(Encode(body))) == Ok(body) <==> Survives(body)
  {
    match body
    case PlayStream(source, echo, station, uri) => StreamRoundTripIsExact(source, echo, station, uri);
    case Display(p) => PresentationRoundTripIsExact(p);
    case Playback(action) => PlaybackRoundTripIsExact(action);
    case Unknown(_, payload) =>
      if "name" in payload && payload["name"].Str? {
        ExtensionReadIsExact(payload, payload["name"].s);
      }
    case Actuator(_, _) => ActuatorRoundTripIsExact(body);
    case Volume(_) => VolumeRoundTrips(body);
    case PlayStation(_) =>
  }

  /** A now-playing view without a subtitle: written as null, which the reader does not take for a string. */
  predicate BareNowPlaying(body: CommandBody) {
    body.Display? && body.presentation.NowPlaying? && body.presentation.subtitle.None?
  }

  /** A body that passes validation survives unless it is a bare now-playing view or an extension at odds with its payload. */
  lemma {:induction false} ValidBodyRoundTrips(body: CommandBody, admitsUri: string -> bool)
    requires ValidateBody(body, admitsUri).Pass?
    ensures !body.Unknown? ==> (Decode(Obj(Encode(body))) == Ok(body) <==> !BareNowPlaying(body))
    ensures body.Unknown? ==>
      (Decode(Obj(Encode(body))) == Ok(body) <==>
        "name" in body.payload && body.payload["name"] == Str(body.name) && Namespaced(body.name)
        && KindOf(body.name) == ExtensionName)
  {
    RoundTripIsExact(body);
    if body.Playback? {
    }
  }

  /** Whatever was accepted from the wire is accepted again after being re-written, bare now-playing views aside. */
  lemma {:induction false} AcceptedBodyRoundTrips(j: Json)
    requires Decode(j).Ok?
    ensures var body := Decode(j).value;
      Decode(Obj(Encode(body))) == Ok(body) <==> !BareNowPlaying(body)
  {
    var body := Decode(j).value;
    var name := j.fields["name"].s;
    RoundTripIsExact(body);
    ExtensionReadIsExact(j.fields, name);
    match KindOf(name)
    case StreamName => StreamReadIsStream(j.fields);
    case ViewName => ViewReadIsDisplay(j.fields);
    case PlaybackName(_) => TrimEnds(name, PLAYBACK);
    case _ =>
  }

  /** A view accepted without a subtitle cannot be sent on: its own encoding is refused. */
  lemma BareNowPlayingIsRefused(station: string, title: string)
    ensures Decode(Obj(map["name" := Str("display.show_view"), "view" := Str("now_playing"), "station_id" := Str(station),
                           "title" := Str(title)])) == Ok(Display(NowPlaying(station, title, None)))
    ensures Decode(Obj(Encode(Display(NowPlaying(station, title, None))))) == Err(Mistyped("subtitle"))
  {
    var m := map["name" := Str("display.show_view"), "view" := Str("now_playing"), "station_id" := Str(station),
                 "title" := Str(title)];
    assert m["name"] == Str("display.show_view") && m["view"] == Str("now_playing") && "subtitle" !in m;
    assert m["station_id"] == Str(station) && m["title"] == Str(title);
    NowPlayingRoundTripIsExact(station, title, None);
  }
}
