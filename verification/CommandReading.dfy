/** What the reader of command bodies makes of each kind of object, whatever else the object holds. */
module CommandReading {
  import opened Common
  import opened DeviceModel
  import opened CommandCodec

  predicate Named(m: Fields, name: string) {
    "name" in m && m["name"] == Str(name)
  }

  /** A required string member. */
  function TextMember(m: Fields, field: string): Result<string, DecodeError> {
    if field !in m then Err(Missing(field)) else if m[field].Str? then Ok(m[field].s) else Err(Mistyped(field))
  }

  /** Objects without a name in words are not commands. */
  lemma {:induction false} NamelessIsRefused(j: Json)
    ensures Decode(j) == Err(NotAnObject) <==> !j.Obj?
    ensures Decode(j) == Err(MissingName) <==> j.Obj? && ("name" !in j.fields || !j.fields["name"].Str?)
  {
    if j.Obj? && "name" in j.fields && j.fields["name"].Str? {
      NamedReadsFail(j.fields, j.fields["name"].s);
    }
  }

  lemma NamedReadsFail(m: Fields, name: string)
    ensures DecodeNamed(m, name) != Err(NotAnObject) && DecodeNamed(m, name) != Err(MissingName)
  {
    match KindOf(name)
    case StreamName => StreamReadsFail(m);
    case ViewName => ViewReadsFail(m);
    case _ =>
  }

  lemma StreamReadsFail(m: Fields)
    ensures DecodeStream(m) != Err(NotAnObject) && DecodeStream(m) != Err(MissingName)
  {
  }

  lemma ViewReadsFail(m: Fields)
    ensures DecodeView(m) != Err(NotAnObject) && DecodeView(m) != Err(MissingName)
  {
    if "items" in m && m["items"].Arr? {
      CardsReadFail(m["items"].items);
    }
  }

  lemma {:induction false} CardsReadFail(items: seq<Json>)
    ensures DecodeCards(items).Err? ==> DecodeCards(items) != Err(NotAnObject) && DecodeCards(items) != Err(MissingName)
  {
    if items != [] {
      CardsReadFail(items[1..]);
    }
  }

  lemma {:induction false} ReadStation(m: Fields)
    requires Named(m, "station.play_station")
    ensures Decode(Obj(m)) == match TextMember(m, "station_id") { case Ok(id) => Ok(PlayStation(id)) case Err(e) => Err(e) }
  {
  }

  lemma {:induction false} ReadText(m: Fields)
    requires Named(m, "display.show_text")
    ensures Decode(Obj(m)) == match TextMember(m, "text") { case Ok(text) => Ok(Display(Text(text))) case Err(e) => Err(e) }
  {
  }

  /** A level is any integer of one byte; nothing else is. */
  lemma {:induction false} ReadLevel(m: Fields)
    requires Named(m, "volume.set_volume")
    ensures Decode(Obj(m)) ==
              if "level" !in m then Err(Missing("level"))
              else if m["level"].Int? && 0 <= m["level"].i <= 255 then Ok(Volume(SetLevel(m["level"].i)))
              else Err(Mistyped("level"))
  {
    KnownNames();
  }

  lemma {:induction false} ReadDelta(m: Fields)
    requires Named(m, "volume.change_volume")
    ensures Decode(Obj(m)) ==
              if "delta" !in m then Err(Missing("delta"))
              else if m["delta"].Int? && -128 <= m["delta"].i <= 127 then Ok(Volume(Change(m["delta"].i)))
              else Err(Mistyped("delta"))
  {
    KnownNames();
  }

  lemma {:induction false} ReadMute(m: Fields)
    requires Named(m, "volume.set_mute")
    ensures Decode(Obj(m)) ==
              if "muted" !in m then Err(Missing("muted"))
              else if m["muted"].Bool? then Ok(Volume(SetMute(m["muted"].b)))
              else Err(Mistyped("muted"))
  {
    KnownNames();
  }

  /** A set point may be written as an integer or with a fraction, and is read as that number. */
  lemma {:induction false} ReadSetPoint(m: Fields)
    requires Named(m, "entity.set_value")
    ensures Decode(Obj(m)) ==
              if "value" !in m then Err(Missing("value"))
              else match m["value"] {
                case Int(i) => Ok(Actuator(SetValue, Some(Finite(i as real))))
                case Frac(x) => Ok(Actuator(SetValue, Some(Finite(x))))
                case _ => Err(Mistyped("value"))
              }
  {
    KnownNames();
  }

  lemma {:induction false} ReadSwitches(m: Fields)
    ensures Named(m, "entity.turn_on") ==> Decode(Obj(m)) == Ok(Actuator(TurnOn, None))
    ensures Named(m, "entity.turn_off") ==> Decode(Obj(m)) == Ok(Actuator(TurnOff, None))
  {
    KnownNames();
  }

  // ---- Streams and views ---------------------------------------------------------------------------------------

  lemma {:induction false} ReadDirectStream(m: Fields)
    requires Named(m, "station.play_stream") && "source" in m && m["source"] == Str("direct_stream")
    ensures Decode(Obj(m)) ==
              if "station_id" in m then Err(InvalidStationEcho)
              else if "station" in m then Err(InvalidStationPresentation)
              else match TextMember(m, "stream_uri") {
                case Ok(uri) => Ok(PlayStream(DirectStream, None, None, uri))
                case Err(e) => Err(e)
              }
  {
    assert "direct_stream"[0] != "rockserver_catalog"[0];
  }

  lemma {:induction false} ReadCatalogStream(m: Fields)
    requires Named(m, "station.play_stream") && "source" in m && m["source"] == Str("rockserver_catalog")
    ensures "station" !in m ==>
              Decode(Obj(m)) == match TextMember(m, "station_id") {
                case Err(e) => Err(e)
                case Ok(id) =>
                  match TextMember(m, "stream_uri") {
                    case Err(e) => Err(e)
                    case Ok(uri) => Ok(PlayStream(RockserverCatalog, Some(id), None, uri))
                  }
              }
    ensures "station" in m ==>
              Decode(Obj(m)) == match TextMember(m, "station_id") {
                case Err(e) => Err(e)
                case Ok(id) =>
                  match DecodeStation(m["station"]) {
                    case Err(e) => Err(e)
                    case Ok(station) =>
                      match TextMember(m, "stream_uri") {
                        case Err(e) => Err(e)
                        case Ok(uri) => Ok(PlayStream(RockserverCatalog, Some(id), Some(station), uri))
                      }
                  }
              }
  {
  }

  lemma {:induction false} OtherSourcesAreRefused(m: Fields)
    requires Named(m, "station.play_stream")
    requires "source" !in m || (m["source"] != Str("direct_stream") && m["source"] != Str("rockserver_catalog"))
    ensures Decode(Obj(m)) == Err(InvalidSource)
  {
  }

  /** A string, or none for null or a missing member. */
  predicate OptionalMember(m: Fields, field: string, value: Option<string>) {
    if field !in m || m[field] == Null then value == None else m[field].Str? && value == Some(m[field].s)
  }

  /** A presentation is an object of a name and an optional icon and nothing else, or the same two in an array. */
  lemma {:induction false} ReadPresentation(j: Json, name: string, icon: Option<string>)
    ensures DecodeStation(j) == Ok(StationPresentation(name, icon)) <==>
              || (j.Obj? && (forall key :: key in j.fields ==> key == "name" || key == "icon_url")
                  && "name" in j.fields && j.fields["name"] == Str(name) && OptionalMember(j.fields, "icon_url", icon))
              || (j.Arr? && |j.items| == 2 && j.items[0] == Str(name)
                  && (if j.items[1] == Null then icon == None else j.items[1].Str? && icon == Some(j.items[1].s)))
  {
    if j.Obj? {
      assert j.fields.Keys <= {"name", "icon_url"} <==> forall key :: key in j.fields ==> key == "name" || key == "icon_url";
    }
  }

  lemma {:induction false} ReadNowPlaying(m: Fields)
    requires Named(m, "display.show_view") && "view" in m && m["view"] == Str("now_playing")
    ensures Decode(Obj(m)) == match TextMember(m, "station_id") {
              case Err(e) => Err(e)
              case Ok(id) =>
                match TextMember(m, "title") {
                  case Err(e) => Err(e)
                  case Ok(title) =>
                    if "subtitle" !in m then Ok(Display(NowPlaying(id, title, None)))
                    else if m["subtitle"].Str? then Ok(Display(NowPlaying(id, title, Some(m["subtitle"].s))))
                    else Err(Mistyped("subtitle"))
                }
            }
  {
    assert "now_playing"[0] != "sensor_grid"[0];
  }

  lemma {:induction false} ReadGrid(m: Fields)
    requires Named(m, "display.show_view") && "view" in m && m["view"] == Str("sensor_grid")
    ensures Decode(Obj(m)) == match TextMember(m, "title") {
              case Err(e) => Err(e)
              case Ok(title) =>
                if "items" !in m then Err(Missing("items"))
                else if !m["items"].Arr? then Err(Mistyped("items"))
                else match DecodeCards(m["items"].items) {
                  case Ok(cards) => Ok(Display(SensorGrid(title, cards)))
                  case Err(e) => Err(e)
                }
            }
  {
  }

  lemma {:induction false} OtherViewsAreRefused(m: Fields)
    requires Named(m, "display.show_view")
    requires "view" !in m || (m["view"] != Str("sensor_grid") && m["view"] != Str("now_playing"))
    ensures Decode(Obj(m)) == Err(InvalidView)
  {
  }

  // ---- Cards -----------------------------------------------------------------------------------------------------

  /** A list is read card by card, and only if every card is. */
  lemma {:induction false} ReadCards(items: seq<Json>, cards: seq<SensorCard>)
    ensures DecodeCards(items) == Ok(cards) <==>
              |cards| == |items| && forall i :: 0 <= i < |items| ==> DecodeCard(items[i]) == Ok(cards[i])
  {
    if items != [] && cards != [] {
      ReadCards(items[1..], cards[1..]);
      assert forall i :: 0 < i < |items| ==> items[i] == items[1..][i - 1];
      assert forall i :: 0 < i < |cards| ==> cards[i] == cards[1..][i - 1];
      assert cards == [cards[0]] + cards[1..];
    }
  }

  /** A word, or an object that maps the word to null. */
  predicate Word(j: Json, word: string) {
    j == Str(word) || (j.Obj? && j.fields == map[word := Null])
  }

  predicate QualityWord(j: Json, q: Quality) {
    match q
    case GoodQuality => Word(j, "ok")
    case DegradedQuality => Word(j, "degraded")
    case UnavailableQuality => Word(j, "unavailable")
    case UnknownQuality => Word(j, "unknown")
  }

  predicate FreshnessWord(j: Json, f: Freshness) {
    match f
    case Fresh => Word(j, "fresh")
    case Stale => Word(j, "stale")
    case UnknownFreshness => Word(j, "unknown")
  }

  lemma OneWord(j: Json, a: string, b: string)
    requires a != b && Word(j, a)
    ensures !Word(j, b)
  {
    if j.Obj? {
      assert a in j.fields && a !in map[b := Null];
    }
  }

  lemma {:induction false} ReadQuality(j: Json, q: Quality)
    ensures AsQuality(j) == Ok(q) <==> QualityWord(j, q)
  {
    assert "ok"[0] != "degraded"[0] && "ok"[0] != "unavailable"[0] && "degraded"[0] != "unavailable"[0] && |"unavailable"| != |"unknown"|;
    if Word(j, "ok") {
      OneWord(j, "ok", "degraded");
      OneWord(j, "ok", "unavailable");
      OneWord(j, "ok", "unknown");
    } else if Word(j, "degraded") {
      OneWord(j, "degraded", "unavailable");
      OneWord(j, "degraded", "unknown");
    } else if Word(j, "unavailable") {
      OneWord(j, "unavailable", "unknown");
    }
  }

  lemma {:induction false} ReadFreshness(j: Json, f: Freshness)
    ensures AsFreshness(j) == Ok(f) <==> FreshnessWord(j, f)
  {
    assert "fresh"[0] != "stale"[0] && "fresh"[0] != "unknown"[0] && "stale"[0] != "unknown"[0];
    if Word(j, "fresh") {
      OneWord(j, "fresh", "stale");
      OneWord(j, "fresh", "unknown");
    } else if Word(j, "stale") {
      OneWord(j, "stale", "unknown");
    }
  }

  /** A card by name, other members ignored. */
  lemma {:induction false} ReadCardObject(m: Fields, c: SensorCard)
    ensures DecodeCard(Obj(m)) == Ok(c) <==>
              && "entity_id" in m && m["entity_id"] == Str(c.entity) && "label" in m && m["label"] == Str(c.title)
              && "value" in m && m["value"] == c.value && OptionalMember(m, "unit", c.unit)
              && "quality" in m && QualityWord(m["quality"], c.quality)
              && "freshness" in m && FreshnessWord(m["freshness"], c.freshness)
  {
    if "quality" in m {
      ReadQuality(m["quality"], c.quality);
    }
    if "freshness" in m {
      ReadFreshness(m["freshness"], c.freshness);
    }
  }

  /** A card by position: six members, no more and no fewer. */
  lemma {:induction false} ReadCardArray(items: seq<Json>, c: SensorCard)
    ensures DecodeCard(Arr(items)) == Ok(c) <==>
              && |items| == 6 && items[0] == Str(c.entity) && items[1] == Str(c.title) && items[2] == c.value
              && (if items[3] == Null then c.unit == None else items[3].Str? && c.unit == Some(items[3].s))
              && QualityWord(items[4], c.quality) && FreshnessWord(items[5], c.freshness)
  {
    if |items| == 6 {
      ReadQuality(items[4], c.quality);
      ReadFreshness(items[5], c.freshness);
    }
  }

  // ---- Names -----------------------------------------------------------------------------------------------------

  function Times(s: string, n: nat): string {
    if n == 0 then "" else s + Times(s, n - 1)
  }

  /** What is left of a name is what follows all leading repetitions. */
  lemma {:induction false} TrimIsExact(s: string, prefix: string) returns (n: nat)
    requires prefix != ""
    ensures s == Times(prefix, n) + TrimStart(s, prefix) && !(prefix <= TrimStart(s, prefix))
    decreases |s|
  {
    if prefix <= s {
      var rest := s[|prefix|..];
      n := TrimIsExact(rest, prefix);
      assert s == prefix + rest;
      n := n + 1;
    } else {
      n := 0;
      assert Times(prefix, 0) + s == s;
    }
  }

  /** Any name that starts with the playback prefix is a playback command, whose action is what follows the repetitions. */
  lemma {:induction false} ReadPlayback(m: Fields, name: string) returns (n: nat)
    requires Named(m, name) && "playback." <= name
    ensures Decode(Obj(m)).Ok? && Decode(Obj(m)).value.Playback?
    ensures name == Times("playback.", n) + Decode(Obj(m)).value.action && !("playback." <= Decode(Obj(m)).value.action)
  {
    assert name[0] == 'p';
    n := TrimIsExact(name, "playback.");
  }

  predicate Reserved(name: string) {
    || name in ["station.play_station", "station.play_stream", "display.show_text", "display.show_view", "volume.set_volume",
                "volume.change_volume", "volume.set_mute", "entity.turn_on", "entity.turn_off", "entity.set_value"]
    || "playback." <= name
  }

  lemma {:induction false} ExtensionIsUnreserved(name: string)
    ensures KindOf(name) == ExtensionName <==> !Reserved(name)
  {
  }

  /** Lower-case words of letters, digits and underscores, each starting with a letter, joined by single dots; at least two. */
  ghost predicate Dotted(name: string) {
    && 1 <= |name| <= 96 && LowerLetter(name[0]) && name[|name| - 1] != '.'
    && (forall i :: 0 <= i < |name| ==> LowerLetter(name[i]) || '0' <= name[i] <= '9' || name[i] == '_' || name[i] == '.')
    && (forall i :: 0 < i < |name| && name[i - 1] == '.' ==> LowerLetter(name[i]))
    && HasDot(name)
  }

  predicate LowerLetter(c: char) {
    'a' <= c <= 'z'
  }

  predicate TailChar(c: char) {
    LowerLetter(c) || '0' <= c <= '9' || c == '_'
  }

  ghost predicate Fragment(part: string) {
    forall i :: 0 <= i < |part| ==> TailChar(part[i])
  }

  ghost predicate AllNames(parts: seq<string>) {
    forall k :: 0 <= k < |parts| ==> NamePart(parts[k])
  }

  /** The first part may be a fragment, the others are whole parts. */
  ghost predicate TailParts(parts: seq<string>)
    requires parts != []
  {
    Fragment(parts[0]) && AllNames(parts[1..])
  }

  /** A dot is followed by a letter, and every other character may stand in a name. */
  ghost predicate LeadAt(s: string, i: nat)
    requires i < |s|
  {
    if s[i] == '.' then i + 1 < |s| && LowerLetter(s[i + 1]) else TailChar(s[i])
  }

  ghost predicate DotsLead(s: string) {
    forall i: nat :: i < |s| ==> LeadAt(s, i)
  }

  lemma DotsLeadStep(s: string)
    requires s != ""
    ensures DotsLead(s) <==> LeadAt(s, 0) && DotsLead(s[1..])
  {
    var rest := s[1..];
    forall i: nat | i < |rest| ensures LeadAt(rest, i) <==> LeadAt(s, i + 1) {
    }
    if DotsLead(rest) && LeadAt(s, 0) {
      forall i: nat | i < |s| ensures LeadAt(s, i) {
        assert i > 0 ==> LeadAt(rest, i - 1);
      }
    }
  }

  lemma FragmentStep(c: char, part: string)
    ensures Fragment([c] + part) <==> TailChar(c) && Fragment(part)
  {
    var all := [c] + part;
    assert all[0] == c && forall i :: 0 <= i < |part| ==> all[i + 1] == part[i];
  }

  lemma FirstPart(s: string)
    ensures Parts(s)[0] == "" <==> s == "" || s[0] == '.'
    ensures s != "" && s[0] != '.' ==> Parts(s)[0] != "" && Parts(s)[0][0] == s[0]
  {
  }

  /** Parts that are all whole names, by the first character and what follows. */
  lemma WholeParts(s: string)
    ensures AllNames(Parts(s)) <==> s != "" && LowerLetter(s[0]) && TailParts(Parts(s))
  {
    FirstPart(s);
  }

  predicate HasDot(s: string) {
    exists i :: 0 <= i < |s| && s[i] == '.'
  }

  lemma {:induction false} PartsFollowDots(s: string)
    ensures TailParts(Parts(s)) <==> DotsLead(s)
    ensures |Parts(s)| >= 2 <==> HasDot(s)
  {
    if s != "" {
      var rest := s[1..];
      var parts := Parts(rest);
      PartsFollowDots(rest);
      DotsLeadStep(s);
      if s[0] == '.' {
        assert Parts(s) == [[]] + parts && Parts(s)[1..] == parts;
        WholeParts(rest);
      } else {
        FragmentStep(s[0], parts[0]);
        assert Parts(s) == [[s[0]] + parts[0]] + parts[1..] && Parts(s)[1..] == parts[1..];
      }
    }
  }

  /** Splitting at dots and checking the parts comes to this. */
  lemma {:induction false} NamespacedIsDotted(name: string)
    ensures Namespaced(name) <==> Dotted(name)
  {
    PartsFollowDots(name);
    WholeParts(name);
    if name != "" && LowerLetter(name[0]) {
      DottedIsDotsLead(name);
    }
  }

  lemma DottedIsDotsLead(name: string)
    requires name != "" && LowerLetter(name[0])
    ensures DotsLead(name) && HasDot(name) && |name| <= 96 <==> Dotted(name)
  {
    if DotsLead(name) {
      assert LeadAt(name, |name| - 1);
      forall i | 0 < i < |name| && name[i - 1] == '.' ensures LowerLetter(name[i]) {
        assert LeadAt(name, i - 1);
      }
      forall i | 0 <= i < |name| ensures TailChar(name[i]) || name[i] == '.' {
        assert LeadAt(name, i);
      }
    }
    if Dotted(name) {
      forall i: nat | i < |name| ensures LeadAt(name, i) {
        assert name[i] == '.' && i + 1 < |name| ==> LowerLetter(name[i + 1]);
      }
    }
  }
}
