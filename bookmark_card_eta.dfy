/** The card of one bookmarked stop (`BookmarkCardEta`): whether the
    bookmark is a bus or a subway stop, the merged and sorted arrivals,
    the arrivals of the bookmarked lines only, the link of the card, its
    direction label and the line list it passes on. */
module BookmarkCardEta {
  import opened JsValues
  import opened JsText
  import opened Sequences
  import opened TransitData

  // ---------------------------------------------------------------
  // Data
  // ---------------------------------------------------------------

  /** The `line` of a bookmark: one line number, or several. */
  datatype LineField = Scalar(line: string) | Many(lines: seq<string>)

  /** The `type` of a bookmark, which may be missing. */
  datatype BookmarkType = TtcSubway | TtcBus | Untyped

  /** One entry of a bookmark's `directions`. */
  datatype DirectionEntry = DirectionEntry(line: string, direction: string)

  /** A bookmark (`LineStopEta`). */
  datatype LineStopEta = LineStopEta(stopTag: string, stopName: string, routeName: string, line: LineField,
                                     kind: BookmarkType, direction: Option<string>,
                                     directions: Option<seq<DirectionEntry>>)

  datatype StationType = Bus | Subway

  /** A prediction response: an array, or an object that the ETA
      normaliser turns into direction groups. */
  datatype Payload = ArrayPayload(items: seq<SubwayPrediction>) | ObjectPayload(etaDb: seq<EtaGroup>)

  // ---------------------------------------------------------------
  // Station type
  // ---------------------------------------------------------------

  /** `line.toString()`: an array prints as its elements joined by ",". */
  function LineToString(l: LineField): string {
    match l
    case Scalar(s) => s
    case Many(xs) => if |xs| == 0 then "" else Join(xs, ',')
  }

  /** `Number.parseInt(line.toString()) > 6 ? "bus" : "subway"`; `NaN`
      compares false, so a non-numeric line is a subway station. */
  function StationTypeOf(l: LineField): StationType {
    match ParseInt(LineToString(l))
    case Some(n) => if n > 6 then Bus else Subway
    case None => Subway
  }

  /** A bookmark with a line number `n` is a bus stop exactly when `n > 6`. */
  lemma StationTypeOfNumber(n: int)
    ensures StationTypeOf(Scalar(IntToString(n))) == (if n > 6 then Bus else Subway)
  {
    ParseIntOfIntToString(n);
  }

  /** A bookmark whose line does not parse as a number is a subway stop. */
  lemma StationTypeOfNonNumber(l: LineField)
    requires ParseInt(LineToString(l)).None?
    ensures StationTypeOf(l) == Subway
  {
  }

  /** A bookmark of several lines is classified by its first line alone,
      because `parseInt` stops at the first comma of the joined list. */
  lemma StationTypeOfManyIsFirst(xs: seq<string>)
    requires |xs| >= 1
    ensures StationTypeOf(Many(xs)) == StationTypeOf(Scalar(xs[0]))
  {
    if |xs| > 1 {
      ParseIntStopsAtComma(xs[0], Join(xs[1..], ','));
      assert Join(xs, ',') == xs[0] + "," + Join(xs[1..], ',');
    }
  }

  // ---------------------------------------------------------------
  // unifiedEta: flatten, then sort
  // ---------------------------------------------------------------

  /** The arrivals of all groups, group after group; a group without a
      list adds nothing. */
  function Flatten(groups: seq<EtaGroup>): seq<EtaEntry>
  {
    if |groups| == 0 then [] else Flatten(groups[..|groups| - 1]) + EtasOf(groups[|groups| - 1])
  }

  /** The loop that concatenates each group's `etas` onto `templist`. */
  method FlattenEtas(etaDb: seq<EtaGroup>) returns (templist: seq<EtaEntry>)
    ensures templist == Flatten(etaDb)
  {
    templist := [];
    for i := 0 to |etaDb|
      invariant templist == Flatten(etaDb[..i])
    {
      assert etaDb[..i + 1][..i] == etaDb[..i];
      var list := etaDb[i];
      if list.etas.Some? {
        templist := templist + list.etas.value;
      }
    }
    assert etaDb[..|etaDb|] == etaDb;
  }

  /** Flattening a concatenation of group lists concatenates their
      flattenings: the groups contribute in order. */
  lemma {:induction false} FlattenConcat(a: seq<EtaGroup>, b: seq<EtaGroup>)
    ensures Flatten(a + b) == Flatten(a) + Flatten(b)
    decreases |b|
  {
    if |b| == 0 {
      assert a + b == a;
    } else {
      FlattenConcat(a, b[..|b| - 1]);
      assert (a + b)[..|a + b| - 1] == a + b[..|b| - 1];
    }
  }

  /** A group without a prediction list contributes nothing. */
  lemma GroupWithoutEtasAddsNothing(a: seq<EtaGroup>, g: EtaGroup, b: seq<EtaGroup>)
    requires g.etas.None?
    ensures Flatten(a + [g] + b) == Flatten(a + b)
  {
    FlattenConcat(a + [g], b);
    FlattenConcat(a, b);
    assert (a + [g])[..|a|] == a;
  }

  predicate SortedByEpoch(s: seq<EtaEntry>) {
    forall i, j :: 0 <= i < j < |s| ==> s[i].epochTime <= s[j].epochTime
  }

  /** Insert `x` before the first element that is not earlier than it. */
  function InsertByEpoch(x: EtaEntry, s: seq<EtaEntry>): seq<EtaEntry>
  {
    if |s| == 0 then [x]
    else if x.epochTime <= s[0].epochTime then [x] + s
    else [s[0]] + InsertByEpoch(x, s[1..])
  }

  /** `list.sort((a, b) => a.epochTime - b.epochTime)`. The ECMAScript
      sort is stable, so its result is determined by the input: the
      stable insertion sort below. */
  function SortByEpoch(s: seq<EtaEntry>): seq<EtaEntry>
  {
    if |s| == 0 then [] else InsertByEpoch(s[0], SortByEpoch(s[1..]))
  }

  lemma {:induction false} InsertByEpochPermutes(x: EtaEntry, s: seq<EtaEntry>)
    ensures multiset(InsertByEpoch(x, s)) == multiset(s) + multiset{x}
    ensures |InsertByEpoch(x, s)| == |s| + 1
  {
    if |s| > 0 && x.epochTime > s[0].epochTime {
      InsertByEpochPermutes(x, s[1..]);
      assert s == [s[0]] + s[1..];
    }
  }

  /** Every element of `s` is at least `t`. */
  predicate AllFrom(s: seq<EtaEntry>, t: int) {
    forall i :: 0 <= i < |s| ==> t <= s[i].epochTime
  }

  lemma {:induction false} InsertByEpochKeepsOrder(x: EtaEntry, s: seq<EtaEntry>)
    requires SortedByEpoch(s)
    ensures SortedByEpoch(InsertByEpoch(x, s))
    ensures forall t :: AllFrom(s, t) && t <= x.epochTime ==> AllFrom(InsertByEpoch(x, s), t)
  {
    if |s| > 0 && x.epochTime > s[0].epochTime {
      InsertByEpochKeepsOrder(x, s[1..]);
      var t := InsertByEpoch(x, s[1..]);
      assert AllFrom(s[1..], s[0].epochTime);
      assert AllFrom(t, s[0].epochTime);
      var r := InsertByEpoch(x, s);
      assert r == [s[0]] + t;
      forall i, j | 0 <= i < j < |r| ensures r[i].epochTime <= r[j].epochTime {
        if i > 0 { assert r[i] == t[i - 1] && r[j] == t[j - 1]; }
        else { assert r[j] == t[j - 1]; }
      }
      forall u | AllFrom(s, u) && u <= x.epochTime ensures AllFrom(r, u) {
        assert AllFrom(s[1..], u);
      }
    }
  }

  /** The sorted list is in ascending order of `epochTime` and is a
      permutation of its input. */
  lemma {:induction false} SortByEpochSortsAndPermutes(s: seq<EtaEntry>)
    ensures SortedByEpoch(SortByEpoch(s))
    ensures multiset(SortByEpoch(s)) == multiset(s)
    ensures |SortByEpoch(s)| == |s|
  {
    if |s| > 0 {
      SortByEpochSortsAndPermutes(s[1..]);
      InsertByEpochKeepsOrder(s[0], SortByEpoch(s[1..]));
      InsertByEpochPermutes(s[0], SortByEpoch(s[1..]));
      assert s == [s[0]] + s[1..];
    }
  }

  /** The entries whose time is `k`. */
  function AtEpoch(k: int): EtaEntry -> bool {
    (e: EtaEntry) => e.epochTime == k
  }

  lemma {:induction false} InsertByEpochAtEpoch(x: EtaEntry, s: seq<EtaEntry>, k: int)
    requires SortedByEpoch(s)
    ensures Filter(InsertByEpoch(x, s), AtEpoch(k)) == (if x.epochTime == k then [x] else []) + Filter(s, AtEpoch(k))
  {
    if |s| > 0 && x.epochTime > s[0].epochTime {
      InsertByEpochAtEpoch(x, s[1..], k);
      assert InsertByEpoch(x, s)[1..] == InsertByEpoch(x, s[1..]);
    }
  }

  /** The sort is stable: for every time, the entries at that time keep
      their relative order. */
  lemma {:induction false} SortByEpochIsStable(s: seq<EtaEntry>, k: int)
    ensures Filter(SortByEpoch(s), AtEpoch(k)) == Filter(s, AtEpoch(k))
  {
    if |s| > 0 {
      SortByEpochIsStable(s[1..], k);
      SortByEpochSortsAndPermutes(s[1..]);
      InsertByEpochAtEpoch(s[0], SortByEpoch(s[1..]), k);
    }
  }

  /** Which response `unifiedEta` reads: the stop predictions for a bus
      stop, the subway predictions otherwise. */
  function SelectedPayload(station: StationType, busData: Option<Payload>,
                           subwayData: Option<seq<SubwayPrediction>>): Option<Payload>
  {
    if station == Bus then busData
    else match subwayData
      case None => None
      case Some(items) => Some(ArrayPayload(items))
  }

  /** `unifiedEta`: for an object response, every group's arrivals in one
      list sorted ascending by time (a stable sort of the concatenation);
      for an array response or no response, nothing. */
  method UnifiedEta(station: StationType, busData: Option<Payload>, subwayData: Option<seq<SubwayPrediction>>)
    returns (unified: seq<EtaEntry>)
    ensures SortedByEpoch(unified)
    ensures match SelectedPayload(station, busData, subwayData)
      case Some(ObjectPayload(etaDb)) =>
        && multiset(unified) == multiset(Flatten(etaDb))
        && unified == SortByEpoch(Flatten(etaDb))
        && forall k :: Filter(unified, AtEpoch(k)) == Filter(Flatten(etaDb), AtEpoch(k))
      case _ => unified == []
  {
    var data := SelectedPayload(station, busData, subwayData);
    if data.Some? {
      if data.value.ObjectPayload? {
        var templist := FlattenEtas(data.value.etaDb);
        SortByEpochSortsAndPermutes(templist);
        forall k ensures Filter(SortByEpoch(templist), AtEpoch(k)) == Filter(templist, AtEpoch(k)) {
          SortByEpochIsStable(templist, k);
        }
        return SortByEpoch(templist);
      }
    }
    return [];
  }

  // ---------------------------------------------------------------
  // filteredEta
  // ---------------------------------------------------------------

  /** The parsed line numbers of the bookmark (`NaN` as `None`). */
  function BusLines(l: LineField): seq<Option<int>>
  {
    match l
    case Scalar(s) => [ParseInt(s)]
    case Many(xs) => seq(|xs|, i requires 0 <= i < |xs| => ParseInt(xs[i]))
  }

  /** A bookmark whose lines are printed numbers has those numbers as
      its parsed lines, in order. */
  lemma BusLinesOfPrinted(n: int, ns: seq<int>)
    ensures BusLines(Scalar(IntToString(n))) == [Some(n)]
    ensures var r := BusLines(Many(seq(|ns|, i requires 0 <= i < |ns| => IntToString(ns[i]))));
      |r| == |ns| && forall i :: 0 <= i < |ns| ==> r[i] == Some(ns[i])
  {
    ParseIntOfIntToString(n);
    forall i | 0 <= i < |ns| {
      ParseIntOfIntToString(ns[i]);
    }
  }

  /** `busLines.includes(Number.parseInt(eta.branch))`. `includes` uses
      SameValueZero, under which `NaN` matches `NaN`: in this model both
      are `None`, so it is plain membership. */
  function OnBookmarkedLine(busLines: seq<Option<int>>): EtaEntry -> bool {
    (eta: EtaEntry) => ParseInt(eta.branch) in busLines
  }

  /** `filteredEta`: for a bus stop, the merged arrivals on the
      bookmarked lines; for a subway stop, `undefined`. */
  function FilteredEta(station: StationType, l: LineField, unified: seq<EtaEntry>): Option<seq<EtaEntry>>
  {
    if station == Bus then Some(Filter(unified, OnBookmarkedLine(BusLines(l)))) else None
  }

  lemma {:induction false} FilterKeepsSortedByEpoch(s: seq<EtaEntry>, p: EtaEntry -> bool)
    requires SortedByEpoch(s)
    ensures SortedByEpoch(Filter(s, p))
    ensures forall t :: AllFrom(s, t) ==> AllFrom(Filter(s, p), t)
  {
    if |s| > 0 {
      FilterKeepsSortedByEpoch(s[1..], p);
      var rest := Filter(s[1..], p);
      assert AllFrom(s[1..], s[0].epochTime);
      assert AllFrom(rest, s[0].epochTime);
      if p(s[0]) {
        var r := [s[0]] + rest;
        assert Filter(s, p) == r;
        forall i, j | 0 <= i < j < |r| ensures r[i].epochTime <= r[j].epochTime {
          if i > 0 { assert r[i] == rest[i - 1]; }
          assert r[j] == rest[j - 1];
        }
        forall u | AllFrom(s, u) ensures AllFrom(r, u) {
          assert AllFrom(s[1..], u);
        }
      } else {
        assert Filter(s, p) == rest;
        forall u | AllFrom(s, u) ensures AllFrom(rest, u) {
          assert AllFrom(s[1..], u);
        }
      }
    }
  }

  /** For a bus stop, `filteredEta` keeps exactly the arrivals whose
      parsed branch is one of the parsed bookmarked lines, in their order,
      so sorted arrivals stay sorted; for a subway stop it is undefined. */
  lemma FilteredEtaKeepsBookmarkedLines(station: StationType, l: LineField, unified: seq<EtaEntry>)
    ensures station == Subway ==> FilteredEta(station, l, unified).None?
    ensures station == Bus ==>
      var r := FilteredEta(station, l, unified).value;
      && (forall i :: 0 <= i < |r| ==> r[i] in unified && ParseInt(r[i].branch) in BusLines(l))
      && (forall i :: 0 <= i < |unified| && ParseInt(unified[i].branch) in BusLines(l) ==> unified[i] in r)
      && (forall x :: multiset(r)[x] == if ParseInt(x.branch) in BusLines(l) then multiset(unified)[x] else 0)
      && IsSubsequence(r, unified)
      && (SortedByEpoch(unified) ==> SortedByEpoch(r))
  {
    if station == Bus {
      FilterIsSubsequence(unified, OnBookmarkedLine(BusLines(l)));
      FilterKeepsExactlyPassing(unified, OnBookmarkedLine(BusLines(l)));
      if SortedByEpoch(unified) {
        FilterKeepsSortedByEpoch(unified, OnBookmarkedLine(BusLines(l)));
      }
    }
  }

  /** Under SameValueZero a bookmark whose line is not a number keeps
      the arrivals whose branch is not a number either. */
  lemma NaNLineKeepsNaNBranches(line: string, unified: seq<EtaEntry>, i: nat)
    requires ParseInt(line).None? && i < |unified| && ParseInt(unified[i].branch).None?
    ensures unified[i] in FilteredEta(Bus, Scalar(line), unified).value
  {
    FilterKeepsExactlyPassing(unified, OnBookmarkedLine(BusLines(Scalar(line))));
  }

  // ---------------------------------------------------------------
  // subwayEtas
  // ---------------------------------------------------------------

  /** `subwayEtas`: for a subway stop, the `nextTrains` of the first
      prediction split on ","; reading it from an empty response, or from
      an element without `nextTrains`, throws. */
  function SubwayEtas(station: StationType, subwayData: Option<seq<SubwayPrediction>>): Eval<Option<seq<string>>>
  {
    if station != Subway || subwayData.None? then Value(None)
    else if |subwayData.value| == 0 || subwayData.value[0].nextTrains.None? then TypeError
    else Value(Some(Split(subwayData.value[0].nextTrains.value, ',')))
  }

  /** The subway arrival list joins back to the feed's `nextTrains`. */
  lemma SubwayEtasJoinBack(subwayData: seq<SubwayPrediction>)
    requires |subwayData| > 0 && subwayData[0].nextTrains.Some?
    ensures SubwayEtas(Subway, Some(subwayData)).Value?
    ensures var r := SubwayEtas(Subway, Some(subwayData)).value;
      r.Some? && |r.value| >= 1 && Join(r.value, ',') == subwayData[0].nextTrains.value
  {
    JoinSplit(subwayData[0].nextTrains.value, ',');
  }

  // ---------------------------------------------------------------
  // Link, direction, name, lines
  // ---------------------------------------------------------------

  /** `useLineStopPage`. */
  predicate UseLineStopPage(item: LineStopEta) {
    item.kind == TtcSubway || !item.line.Many? || |item.line.lines| == 1
  }

  /** `line[0]` in a template: the first character of a string or the
      first element of an array, "undefined" when there is none. */
  function FirstOfLine(l: LineField): string {
    match l
    case Scalar(s) => if |s| == 0 then "undefined" else [s[0]]
    case Many(xs) => if |xs| == 0 then "undefined" else xs[0]
  }

  /** `stopUrl`. */
  function StopUrl(item: LineStopEta): string {
    if UseLineStopPage(item) then
      "/ttc/lines/" + (if item.kind == TtcSubway then FirstOfLine(item.line) else LineToString(item.line))
      + "/" + item.stopTag
    else "/stops/" + item.stopTag
  }

  /** The card links to the line-and-stop page of its line for a subway
      bookmark (using `line[0]`), for a single line and for a one-element
      line list, and to the stop page for any other line list. */
  lemma StopUrlCases(item: LineStopEta)
    ensures item.kind == TtcSubway ==> StopUrl(item) == "/ttc/lines/" + FirstOfLine(item.line) + "/" + item.stopTag
    ensures item.kind != TtcSubway && item.line.Scalar? ==>
              StopUrl(item) == "/ttc/lines/" + item.line.line + "/" + item.stopTag
    ensures item.kind != TtcSubway && item.line.Many? && |item.line.lines| == 1 ==>
              StopUrl(item) == "/ttc/lines/" + item.line.lines[0] + "/" + item.stopTag
    ensures item.kind != TtcSubway && item.line.Many? && |item.line.lines| != 1 ==>
              StopUrl(item) == "/stops/" + item.stopTag
  {
  }

  /** `line.line === props.item.line`: a string is never identical to an
      array, so only a single-line bookmark can match an entry. */
  function SameLine(l: LineField): DirectionEntry -> bool {
    (entry: DirectionEntry) => l.Scalar? && entry.line == l.line
  }

  /** `direction`: the direction of the first `directions` entry for the
      bookmark's line, else the bookmark's own `direction`. */
  function Direction(item: LineStopEta): Option<string> {
    if item.directions.None? then item.direction
    else match Find(item.directions.value, SameLine(item.line))
      case Some(entry) => Some(entry.direction)
      case None => item.direction
  }

  /** The direction shown is that of the first entry for the bookmark's
      line; with no such entry, no `directions`, or a line list, it is the
      bookmark's own `direction`. */
  lemma DirectionIsFirstForLine(item: LineStopEta)
    ensures item.directions.None? ==> Direction(item) == item.direction
    ensures item.line.Many? ==> Direction(item) == item.direction
    ensures item.directions.Some? && item.line.Scalar? ==>
      var ds := item.directions.value;
      && ((forall j :: 0 <= j < |ds| ==> ds[j].line != item.line.line) ==> Direction(item) == item.direction)
      && (forall i :: 0 <= i < |ds| && ds[i].line == item.line.line && (forall j :: 0 <= j < i ==> ds[j].line != item.line.line)
            ==> Direction(item) == Some(ds[i].direction))
  {
    if item.directions.Some? {
      var ds := item.directions.value;
      FindIsFirstMatch(ds, SameLine(item.line));
      var r := FindIndex(ds, SameLine(item.line), 0);
      if item.line.Scalar? {
        forall i | 0 <= i < |ds| && ds[i].line == item.line.line && (forall j :: 0 <= j < i ==> ds[j].line != item.line.line)
          ensures Direction(item) == Some(ds[i].direction)
        {
          assert SameLine(item.line)(ds[i]);
          assert r.Some? && r.value == i;
        }
      }
    }
  }

  /** `lines`: the bookmark's line list, a single line wrapped in an array. */
  function Lines(l: LineField): seq<string> {
    match l
    case Scalar(s) => [s]
    case Many(xs) => xs
  }

  /** Wrapping never loses the line: the list is never empty for a single
      line, and it prints exactly as the original field, so it is
      classified the same. */
  lemma LinesWrapsScalar(l: LineField)
    ensures l.Scalar? ==> Lines(l) == [l.line]
    ensures l.Many? ==> Lines(l) == l.lines
    ensures LineToString(Many(Lines(l))) == LineToString(l)
    ensures StationTypeOf(Many(Lines(l))) == StationTypeOf(l)
  {
  }

  /** `name`: for a subway bookmark with a stop tag, the station name from
      the subway stop lookup (given here as `stationName`) or else the
      route name; otherwise the bookmark's stop name. */
  function Name(item: LineStopEta, stationName: Option<string>): string {
    if item.kind == TtcSubway && TruthyString(item.stopTag) then stationName.GetOr(item.routeName)
    else item.stopName
  }

  /** A subway bookmark with a stop tag is named after its station, or
      the route name when the station is unknown; any other bookmark
      keeps its own stop name and ignores the station lookup. */
  lemma NameSources(item: LineStopEta, stationName: Option<string>)
    ensures item.kind == TtcSubway && item.stopTag != "" ==>
              Name(item, stationName) == (if stationName.Some? then stationName.value else item.routeName)
    ensures !(item.kind == TtcSubway && item.stopTag != "") ==>
              Name(item, stationName) == Name(item, None) == item.stopName
  {
  }
}
