/** The page of one line at one stop (`FetchTtcLineStop`): which of the
    three prediction feeds is queried, how each feed's minutes become
    countdowns in seconds, which arrival view is shown, the stop name,
    the station title and what the bookmark button is given. */
module FetchTtcLineStop {
  import opened JsValues
  import opened JsText
  import opened TransitData
  import BookmarkCardEta

  // ---------------------------------------------------------------
  // Which feeds are queried
  // ---------------------------------------------------------------

  /** The subway feed serves lines 1 to 6. */
  predicate SubwayEnabled(line: int) {
    line <= 6
  }

  /** The primary bus feed needs the stop's tag from the stop lookup. */
  predicate BusEnabled(line: int, tag: Option<string>) {
    line > 6 && TruthyOptString(tag)
  }

  /** The basic bus feed stands in when the stop has no tag or the
      primary bus feed failed. */
  predicate BasicEnabled(line: int, tag: Option<string>, busErrored: bool) {
    line > 6 && (!TruthyOptString(tag) || busErrored)
  }

  /** The subway feed and the bus feeds exclude each other; a bus line
      always queries at least one bus feed; without a tag only the basic
      feed runs, and with a tag it runs exactly when the primary feed
      failed. */
  lemma EnabledQueries(line: int, tag: Option<string>, busErrored: bool)
    ensures SubwayEnabled(line) ==> !BusEnabled(line, tag) && !BasicEnabled(line, tag, busErrored)
    ensures !SubwayEnabled(line) ==> BusEnabled(line, tag) || BasicEnabled(line, tag, busErrored)
    ensures !TruthyOptString(tag) ==>
              !BusEnabled(line, tag) && (BasicEnabled(line, tag, busErrored) <==> !SubwayEnabled(line))
    ensures BusEnabled(line, tag) ==> (BasicEnabled(line, tag, busErrored) <==> busErrored)
  {
  }

  // ---------------------------------------------------------------
  // Minutes to countdowns
  // ---------------------------------------------------------------

  /** One countdown: its key and the seconds it counts down from (`NaN`
      as `None`). */
  datatype Countdown = Countdown(key: string, second: Option<int>)

  /** An arrival view: the "no ETA" reminder, or a list of countdowns. */
  datatype EtaDisplay = NoEtaReminder | Countdowns(items: seq<Countdown>)

  /** `Number.parseInt(minute) * 60`; `NaN` times 60 is `NaN`. */
  function MinutesToSeconds(minute: string): Option<int>
  {
    match ParseInt(minute)
    case None => None
    case Some(n) => Some(n * 60)
  }

  /** A printed number of minutes counts down from that many minutes'
      seconds, also after a leading space. */
  lemma MinutesOfPrinted(m: int)
    ensures MinutesToSeconds(IntToString(m)) == Some(60 * m)
    ensures MinutesToSeconds(" " + IntToString(m)) == Some(60 * m)
  {
    ParseIntOfIntToString(m);
    ParseIntSkipsWhiteSpace(' ', IntToString(m));
    assert [' '] + IntToString(m) == " " + IntToString(m);
  }

  /** An entry without a leading number counts down from `NaN`. */
  lemma MinutesOfNonNumber(minute: string)
    requires |minute| == 0 || (!IsStrWhiteSpace(minute[0]) && !IsDecimalDigit(minute[0]) && minute[0] != '+' && minute[0] != '-')
    ensures MinutesToSeconds(minute) == None
  {
    NoLeadingNumberIsNaN(minute);
  }

  /** The countdown at `index` for `minute`, keyed `${index}-${minute}`. */
  function CountdownAt(index: nat, minute: string): Countdown {
    Countdown(IntToString(index) + "-" + minute, MinutesToSeconds(minute))
  }

  function CountdownsOf(minutes: seq<string>): seq<Countdown> {
    seq(|minutes|, i requires 0 <= i < |minutes| => CountdownAt(i, minutes[i]))
  }

  /** `ttcSubwayEtas`. `data?.[0].nextTrains.split(",")` is evaluated
      before any check, so an empty response, or a first element without
      `nextTrains`, throws; otherwise an erroring element shows nothing,
      and a list of minutes shows one countdown per entry. */
  function TtcSubwayEtas(subwayData: Option<seq<SubwayPrediction>>): Eval<Option<EtaDisplay>> {
    if subwayData.None? then Value(None)
    else if |subwayData.value| == 0 || subwayData.value[0].nextTrains.None? then TypeError
    else
      var data := subwayData.value[0];
      var etaArray := Split(data.nextTrains.value, ',');
      if data.hasError then Value(None)
      else if |etaArray| == 0 then Value(Some(NoEtaReminder))
      else Value(Some(Countdowns(CountdownsOf(etaArray))))
  }

  /** No subway data, or an erroring first element, shows nothing; an
      empty response or a missing `nextTrains` throws; otherwise the
      countdowns follow the comma-separated entries in order, one per
      entry (one more than there are commas), so the "no ETA" reminder is
      never shown. */
  lemma TtcSubwayEtasCases(subwayData: Option<seq<SubwayPrediction>>)
    ensures subwayData.None? ==> TtcSubwayEtas(subwayData) == Value(None)
    ensures subwayData.Some? && (|subwayData.value| == 0 || subwayData.value[0].nextTrains.None?) ==>
              TtcSubwayEtas(subwayData).TypeError?
    ensures (subwayData.Some? && |subwayData.value| > 0 && subwayData.value[0].nextTrains.Some? &&
             subwayData.value[0].hasError) ==> TtcSubwayEtas(subwayData) == Value(None)
    ensures TtcSubwayEtas(subwayData) != Value(Some(NoEtaReminder))
    ensures subwayData.Some? && |subwayData.value| > 0 && subwayData.value[0].nextTrains.Some? &&
            !subwayData.value[0].hasError ==>
              var nextTrains := subwayData.value[0].nextTrains.value;
              var minutes := Split(nextTrains, ',');
              && TtcSubwayEtas(subwayData).Value?
              && TtcSubwayEtas(subwayData).value.Some?
              && TtcSubwayEtas(subwayData).value.value.Countdowns?
              && var items := TtcSubwayEtas(subwayData).value.value.items;
              && |items| == |minutes| == Count(nextTrains, ',') + 1
              && forall i :: 0 <= i < |items| ==>
                   items[i].second == MinutesToSeconds(minutes[i])
                   && items[i].key == IntToString(i) + "-" + minutes[i]
  {
    if subwayData.Some? && |subwayData.value| > 0 && subwayData.value[0].nextTrains.Some? {
      SplitShape(subwayData.value[0].nextTrains.value, ',');
    }
  }

  /** A feed whose `nextTrains` lists whole minutes, comma-separated,
      counts down from each of them times 60 seconds, in order. */
  lemma TtcSubwayEtasFromMinutes(ms: seq<nat>, directionText: Option<string>, rest: seq<SubwayPrediction>)
    requires |ms| >= 1
    ensures var minutes := seq(|ms|, i requires 0 <= i < |ms| => IntToString(ms[i]));
      var d := [SubwayPrediction(Some(Join(minutes, ',')), directionText, false)] + rest;
      && TtcSubwayEtas(Some(d)).Value?
      && TtcSubwayEtas(Some(d)).value.Some?
      && TtcSubwayEtas(Some(d)).value.value.Countdowns?
      && var items := TtcSubwayEtas(Some(d)).value.value.items;
      && |items| == |ms|
      && forall i :: 0 <= i < |ms| ==> items[i].second == Some(ms[i] * 60)
  {
    var minutes := seq(|ms|, i requires 0 <= i < |ms| => IntToString(ms[i]));
    forall i, j | 0 <= i < |minutes| && 0 <= j < |minutes[i]| ensures minutes[i][j] != ',' {
      assert minutes[i] == NatToDigits(ms[i]);
      assert IsDecimalDigit(minutes[i][j]);
    }
    SplitJoin(minutes, ',');
    forall i | 0 <= i < |ms| ensures MinutesToSeconds(minutes[i]) == Some(ms[i] * 60) {
      ParseIntOfIntToString(ms[i]);
    }
  }

  /** One element of the basic bus feed. */
  datatype NextBusBasic = NextBusBasic(nextBusMinutes: string)

  /** `ttcBusEtaBasic`: with no first element (no response, or an empty
      one) the "no ETA" reminder once the fetch has completed and nothing
      before; otherwise one countdown per element. The source's second
      emptiness check cannot fire once there is a first element, so it has
      no branch here. */
  function TtcBusEtaBasic(basicData: Option<seq<NextBusBasic>>, isFetched: bool): Option<EtaDisplay> {
    if basicData.None? || |basicData.value| == 0 then (if isFetched then Some(NoEtaReminder) else None)
    else
      var etaArray := basicData.value;
      Some(Countdowns(seq(|etaArray|, i requires 0 <= i < |etaArray| => CountdownAt(i, etaArray[i].nextBusMinutes))))
  }

  /** Without basic data the reminder appears exactly when the fetch has
      completed; with data there is one countdown per element, in order,
      at its minutes times 60, whether or not the fetch has completed. */
  lemma TtcBusEtaBasicCases(basicData: Option<seq<NextBusBasic>>, isFetched: bool)
    ensures (basicData.None? || |basicData.value| == 0) ==>
              (TtcBusEtaBasic(basicData, isFetched) == Some(NoEtaReminder) <==> isFetched)
              && (TtcBusEtaBasic(basicData, isFetched).None? <==> !isFetched)
    ensures basicData.Some? && |basicData.value| > 0 ==>
              var r := TtcBusEtaBasic(basicData, isFetched);
              && r == TtcBusEtaBasic(basicData, !isFetched)
              && r.Some? && r.value.Countdowns?
              && |r.value.items| == |basicData.value|
              && forall i :: 0 <= i < |basicData.value| ==>
                   r.value.items[i].second == MinutesToSeconds(basicData.value[i].nextBusMinutes)
  {
  }

  // ---------------------------------------------------------------
  // Primary bus view and the basic fallback
  // ---------------------------------------------------------------

  /** A primary bus response: whether it carries `predictions`, and the
      direction groups the ETA normaliser makes of it. */
  datatype BusResponse = BusResponse(hasPredictions: bool, etaDb: seq<EtaGroup>)

  /** The key of one direction group's countdown list. */
  function GroupKey(g: EtaGroup): string {
    "line-group-" + g.line + "-" + g.direction + "-" + g.stopTag
  }

  /** `ttcBusEta`: nothing without predictions, else one countdown group
      per direction group, in order. */
  function TtcBusEta(bus: Option<BusResponse>): Option<seq<string>> {
    if bus.None? || !bus.value.hasPredictions then None
    else Some(seq(|bus.value.etaDb|, i requires 0 <= i < |bus.value.etaDb| => GroupKey(bus.value.etaDb[i])))
  }

  /** The three arrival views of the page. */
  datatype EtaSections = EtaSections(subway: Option<EtaDisplay>, bus: Option<seq<string>>, basic: Option<EtaDisplay>)

  /** The arrival part of the page: the subway view, the primary bus view
      and, when that one is absent (`!ttcBusEta`), the basic view. An
      array, even an empty one, is truthy. */
  function PageEtas(subwayData: Option<seq<SubwayPrediction>>, bus: Option<BusResponse>,
                    basicData: Option<seq<NextBusBasic>>, basicFetched: bool): Eval<EtaSections> {
    match TtcSubwayEtas(subwayData)
    case TypeError => TypeError
    case Value(subway) =>
      var busEta := TtcBusEta(bus);
      Value(EtaSections(subway, busEta, if busEta.None? then TtcBusEtaBasic(basicData, basicFetched) else None))
  }

  /** The basic view appears only when the primary bus view is absent,
      which is exactly when there is no primary response with
      predictions; a primary response with predictions hides it even when
      it yields no direction group at all. */
  lemma BasicShownOnlyWithoutPrimary(subwayData: Option<seq<SubwayPrediction>>, bus: Option<BusResponse>,
                                     basicData: Option<seq<NextBusBasic>>, basicFetched: bool)
    requires PageEtas(subwayData, bus, basicData, basicFetched).Value?
    ensures var p := PageEtas(subwayData, bus, basicData, basicFetched).value;
      && (p.bus.None? <==> bus.None? || !bus.value.hasPredictions)
      && (p.basic.Some? ==> p.bus.None?)
      && (p.bus.None? ==> p.basic == TtcBusEtaBasic(basicData, basicFetched))
      && (bus.Some? && bus.value.hasPredictions && bus.value.etaDb == [] ==> p.bus == Some([]) && p.basic.None?)
  {
    if bus.Some? && bus.value.hasPredictions && bus.value.etaDb == [] {
      assert TtcBusEta(bus).value == [];
    }
  }

  // ---------------------------------------------------------------
  // Names and titles
  // ---------------------------------------------------------------

  /** `stopName`: for a subway line the first subway prediction's
      `directionText` (reading it from an empty response throws), else
      the stop's title; "" when missing. */
  function StopName(line: int, subwayData: Option<seq<SubwayPrediction>>, stopTitle: Option<string>): Eval<string> {
    if line <= 6 then
      if subwayData.None? then Value("")
      else if |subwayData.value| == 0 then TypeError
      else Value(subwayData.value[0].directionText.GetOr(""))
    else Value(stopTitle.GetOr(""))
  }

  /** The subway line's stop name comes from the subway feed alone and a
      bus line's from the stop lookup alone, each defaulting to "". */
  lemma StopNameSources(line: int, subwayData: Option<seq<SubwayPrediction>>, stopTitle: Option<string>)
    ensures line > 6 ==> StopName(line, subwayData, stopTitle) == StopName(line, None, stopTitle) == Value(stopTitle.GetOr(""))
    ensures line <= 6 ==> StopName(line, subwayData, stopTitle) == StopName(line, subwayData, None)
    ensures line <= 6 && subwayData.Some? && |subwayData.value| > 0 ==>
              StopName(line, subwayData, stopTitle) == Value(subwayData.value[0].directionText.GetOr(""))
    ensures line <= 6 && subwayData.None? ==> StopName(line, subwayData, stopTitle) == Value("")
    ensures line <= 6 && subwayData == Some([]) ==> StopName(line, subwayData, stopTitle).TypeError?
  {
  }

  /** `name.split(" - ")[0]`: the station name before its first " - ". */
  function StationTitle(name: string): string {
    FirstSegment(name, " - ")
  }

  /** An occurrence of " - " is a space with a hyphen right after it. */
  lemma HyphenOfOccurrence(s: string, q: nat)
    ensures OccursAt(s, " - ", q) ==> q + 1 < |s| && s[q] == ' ' && s[q + 1] == '-'
  {
    if OccursAt(s, " - ", q) {
      assert s[q..q + 3][0] == s[q] && s[q..q + 3][1] == s[q + 1];
    }
  }

  /** A name "station - platform" is titled by its station part, whenever
      that part has no space directly before a hyphen (so "Bloor-Yonge"
      keeps its hyphen); such a name without " - " is its own title. */
  lemma StationTitleOfJoined(station: string, rest: string)
    requires forall i :: 0 <= i < |station| - 1 ==> !(station[i] == ' ' && station[i + 1] == '-')
    ensures StationTitle(station + " - " + rest) == station
    ensures StationTitle(station) == station
  {
    var s := station + " - " + rest;
    var r := StationTitle(s);
    assert OccursAt(s, " - ", |station|) by {
      assert s[|station|..|station| + 3] == " - ";
    }
    forall q: nat | q < |station| ensures !OccursAt(s, " - ", q) {
      assert s[q] == station[q];
      if q + 1 < |station| {
        assert s[q + 1] == station[q + 1];
      } else {
        assert s[q + 1] == ' ';
      }
      HyphenOfOccurrence(s, q);
    }
    assert |r| == |station|;
    assert s[..|station|] == station;
    forall q: nat ensures !OccursAt(station, " - ", q) {
      HyphenOfOccurrence(station, q);
    }
  }

  /** The headings: the stop's title on a bus line, then, for a stop in
      the subway station table, the station title and the stop name. */
  function Headings(line: int, stopTitle: Option<string>, stationName: Option<string>, stopName: string): seq<string> {
    (if line > 6 then [stopTitle.GetOr("")] else [])
    + (match stationName
       case None => []
       case Some(name) => [StationTitle(name), stopName])
  }

  /** A bus line always shows the stop's title first; a station in the
      table adds exactly two headings, its title and the stop name. */
  lemma HeadingsCount(line: int, stopTitle: Option<string>, stationName: Option<string>, stopName: string)
    ensures var h := Headings(line, stopTitle, stationName, stopName);
      && |h| == (if line > 6 then 1 else 0) + (if stationName.Some? then 2 else 0)
      && (line > 6 ==> h[0] == stopTitle.GetOr(""))
      && (stationName.Some? ==> h[|h| - 2] == StationTitle(stationName.value) && h[|h| - 1] == stopName)
  {
  }

  // ---------------------------------------------------------------
  // The bookmark the page offers
  // ---------------------------------------------------------------

  /** The `lines` given to the bookmark button: the page's line, printed. */
  function BookmarkLines(line: int): seq<string> {
    [IntToString(line)]
  }

  /** The `type` given to the bookmark button. */
  function BookmarkKind(line: int): BookmarkCardEta.BookmarkType {
    if line <= 6 then BookmarkCardEta.TtcSubway else BookmarkCardEta.Untyped
  }

  /** A bookmark made on this page is treated by the bookmark card as the
      same kind of stop the page queried: typed as subway and classified
      as a subway station exactly when the subway feed is enabled here. */
  lemma BookmarkAgreesWithFeeds(line: int)
    ensures BookmarkKind(line) == BookmarkCardEta.TtcSubway <==> SubwayEnabled(line)
    ensures BookmarkCardEta.StationTypeOf(BookmarkCardEta.Many(BookmarkLines(line))) == BookmarkCardEta.Bus
            <==> !SubwayEnabled(line)
  {
    BookmarkCardEta.StationTypeOfNumber(line);
    assert BookmarkCardEta.LineToString(BookmarkCardEta.Many(BookmarkLines(line))) == IntToString(line);
  }
}
