/** The syntactic checks of commands and presentations, told by their limits and by the field each failure names. */
module DeviceRules {
  import opened Common
  import opened DeviceModel

  predicate Fits(s: string, low: nat, high: nat) {
    low <= |s| <= high
  }

  /** The order of binary64 values: that of the reals, between the infinities, with not-a-number apart. */
  lemma {:induction false} LessIsTheOrder(a: Float, b: Float)
    ensures Less(a, b) <==>
              && !a.NotANumber? && !b.NotANumber? && a != b
              && (a == Infinite(true) || b == Infinite(false) || (a.Finite? && b.Finite? && a.value < b.value))
  {
  }

  predicate CardFits(c: SensorCard) {
    Fits(c.title, 1, 64) && !(c.quality == UnavailableQuality && c.freshness == Fresh)
  }

  /** The first card that does not fit decides, by its label first. */
  lemma {:induction false} CardsRule(items: seq<SensorCard>)
    ensures ValidateCards(items) == Pass <==> forall i :: 0 <= i < |items| ==> CardFits(items[i])
    ensures ValidateCards(items).Fail? ==>
              exists i :: 0 <= i < |items| && !CardFits(items[i]) && (forall j :: 0 <= j < i ==> CardFits(items[j]))
                && ValidateCards(items) == Fail(if !Fits(items[i].title, 1, 64) then "label" else "quality/freshness")
  {
    if items != [] && CardFits(items[0]) {
      var rest := items[1..];
      CardsRule(rest);
      assert forall i :: 0 < i < |items| ==> items[i] == rest[i - 1];
      if ValidateCards(items).Fail? {
        var i :| 0 <= i < |rest| && !CardFits(rest[i]) && (forall j :: 0 <= j < i ==> CardFits(rest[j]))
                 && ValidateCards(rest) == Fail(if !Fits(rest[i].title, 1, 64) then "label" else "quality/freshness");
        assert items[i + 1] == rest[i];
        forall j | 0 <= j < i + 1 ensures CardFits(items[j]) {
          assert j > 0 ==> items[j] == rest[j - 1];
        }
      }
    }
  }

  lemma {:induction false} TextRule(text: string)
    ensures ValidatePresentation(Text(text)) == if Fits(text, 1, 1024) then Pass else Fail("text")
  {
  }

  lemma {:induction false} NowPlayingRule(station: string, title: string, subtitle: Option<string>)
    ensures ValidatePresentation(NowPlaying(station, title, subtitle)) ==
              if !Fits(station, 1, 128) then Fail("station_id")
              else if !Fits(title, 1, 128) then Fail("title")
              else if subtitle != None && |subtitle.value| > 256 then Fail("subtitle")
              else Pass
  {
  }

  lemma {:induction false} GridRule(title: string, items: seq<SensorCard>)
    ensures !Fits(title, 1, 128) ==> ValidatePresentation(SensorGrid(title, items)) == Fail("title")
    ensures Fits(title, 1, 128) && |items| > 32 ==> ValidatePresentation(SensorGrid(title, items)) == Fail("items")
    ensures Fits(title, 1, 128) && |items| <= 32 ==> ValidatePresentation(SensorGrid(title, items)) == ValidateCards(items)
  {
  }

  lemma {:induction false} DirectStreamRule(echo: Option<string>, station: Option<StationPresentation>, uri: string, admitsUri: string -> bool)
    ensures ValidateBody(PlayStream(DirectStream, echo, station, uri), admitsUri) ==
              if echo != None then Fail("station_id")
              else if station != None then Fail("station")
              else if admitsUri(uri) then Pass else Fail("stream_uri")
  {
  }

  lemma {:induction false} CatalogStreamRule(echo: Option<string>, station: Option<StationPresentation>, uri: string, admitsUri: string -> bool)
    ensures ValidateBody(PlayStream(RockserverCatalog, echo, station, uri), admitsUri) ==
              if echo == None || !Fits(echo.value, 1, 128) then Fail("station_id")
              else if station != None && !Fits(station.value.name, 1, 128) then Fail("station.name")
              else if station != None && station.value.iconUrl != None && !admitsUri(station.value.iconUrl.value) then Fail("station.icon_url")
              else if admitsUri(uri) then Pass else Fail("stream_uri")
  {
  }

  /** Every other body. */
  lemma {:induction false} BodyRule(body: CommandBody, admitsUri: string -> bool)
    ensures match body
            case PlayStation(id) => ValidateBody(body, admitsUri) == if Fits(id, 1, 128) then Pass else Fail("station_id")
            case Display(p) => ValidateBody(body, admitsUri) == ValidatePresentation(p)
            case Playback(action) =>
              ValidateBody(body, admitsUri) ==
                if action == "play" || action == "pause" || action == "stop" || action == "next" || action == "previous"
                then Pass else Fail("command")
            case Volume(Change(delta)) => ValidateBody(body, admitsUri) == if delta == 0 then Fail("command") else Pass
            case Volume(_) => ValidateBody(body, admitsUri) == Pass
            case Actuator(SetValue, value) =>
              ValidateBody(body, admitsUri) == if value != None && value.value.Finite? then Pass else Fail("command")
            case Actuator(_, value) => ValidateBody(body, admitsUri) == if value == None then Pass else Fail("command")
            case Unknown(_, _) => ValidateBody(body, admitsUri) == Pass
            case PlayStream(_, _, _, _) => true
  {
  }

  /** The target first, then the deadline, then the body. */
  lemma {:induction false} CommandRule(c: DeviceCommand, receivedAt: Instant, admitsUri: string -> bool)
    ensures ValidateAt(c, receivedAt, admitsUri) ==
              if c.target.entity != None && c.target.surface != None then Fail("target")
              else if c.deadline != None && !(-1_000_000_000 < c.deadline.value - receivedAt < 31_000_000_000) then Fail("deadline_at")
              else ValidateBody(c.body, admitsUri)
  {
    if c.deadline.Some? {
      DeadlineWindowIsExact(c.deadline.value, receivedAt);
    }
  }
}
