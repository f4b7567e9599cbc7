/** The route page (`RouteInfo`): joining each direction's stop tags
    against the stop records of the route configuration, grouping the
    branches of the route by direction name, and choosing between the
    fallback feed, the primary feed and the error views. */
module FetchRoute {
  import opened JsValues
  import opened JsText
  import opened Sequences

  // ---------------------------------------------------------------
  // Data
  // ---------------------------------------------------------------

  /** A stop record from the stop normaliser; latitude and longitude are
      copied through untouched. */
  datatype Stop = Stop(id: int, name: string, lat: real, lon: real)

  /** A stop record as shown in an accordion: the record and its React key. */
  datatype LineStopElement = LineStopElement(id: int, name: string, lat: real, lon: real, key: int)

  /** One branch of the route in the primary feed: its direction name,
      tag, title, branch number and the tags of its stops in order. */
  datatype RouteDirection = RouteDirection(name: string, tag: string, title: string, branch: string, stopTags: seq<string>)

  /** The `Error` object of the primary feed; `text` is its `#text`. */
  datatype RouteError = RouteError(text: Option<string>)

  /** A primary route-configuration response; `parsedStops` is what the
      stop normaliser returns for it. */
  datatype RouteData = RouteData(error: Option<RouteError>, directions: seq<RouteDirection>, parsedStops: seq<Stop>)

  /** One branch of the fallback feed. */
  datatype BasicBranch = BasicBranch(headsign: Option<string>, gtfsId: string, stops: seq<string>)

  /** A fallback route response; `hasError` is the truthiness of its `Error`. */
  datatype BasicRouteData = BasicRouteData(hasError: bool, branches: seq<BasicBranch>)

  // ---------------------------------------------------------------
  // The stop lookup and createStopList
  // ---------------------------------------------------------------

  /** `stopDb`: the normalised stops of the primary response, and no
      stop at all while there is no primary data. */
  function StopDb(primary: Option<RouteData>): seq<Stop>
  {
    match primary
    case None => []
    case Some(d) => d.parsedStops
  }

  /** `Number.parseInt(tag) === stop.id` for the parsed tag `id`; `NaN`
      (`None`) equals nothing. */
  predicate IdMatches(id: Option<int>, s: Stop) {
    id == Some(s.id)
  }

  /** `stopDb.find((searching) => Number.parseInt(tag) === searching.id)`:
      the first stop whose id is the parsed tag. */
  function FindStop(db: seq<Stop>, tag: string): Option<Stop>
  {
    var id := ParseInt(tag);
    Find(db, (searching: Stop) => IdMatches(id, searching))
  }

  /** The stop found for a tag is the first one whose id is the parsed
      tag; there is none exactly when no id is. */
  lemma FindStopIsFirstMatch(db: seq<Stop>, tag: string)
    ensures FindStop(db, tag).None? <==> forall j :: 0 <= j < |db| ==> !IdMatches(ParseInt(tag), db[j])
    ensures FindStop(db, tag).Some? ==>
      exists i :: 0 <= i < |db| && db[i] == FindStop(db, tag).value && IdMatches(ParseInt(tag), db[i])
                  && forall j :: 0 <= j < i ==> !IdMatches(ParseInt(tag), db[j])
  {
    var id := ParseInt(tag);
    FindIsFirstMatch(db, (searching: Stop) => IdMatches(id, searching));
  }

  /** `{ ...matchingStop, key: matchingStop?.id ?? 0 }`: the key of a
      found stop is its id. */
  function ToElement(s: Stop): LineStopElement {
    LineStopElement(s.id, s.name, s.lat, s.lon, s.id)
  }

  /** The element a tag contributes: its first matching stop with its
      key, or nothing. */
  function Lookup(db: seq<Stop>, tag: string): Option<LineStopElement> {
    match FindStop(db, tag)
    case None => None
    case Some(s) => Some(ToElement(s))
  }

  /** The lookup of every tag, in order. */
  function Lookups(db: seq<Stop>, tags: seq<string>): (r: seq<Option<LineStopElement>>)
    ensures |r| == |tags|
  {
    seq(|tags|, i requires 0 <= i < |tags| => Lookup(db, tags[i]))
  }

  /** What `createStopList` returns for the tags `tags`. */
  function StopList(db: seq<Stop>, tags: seq<string>): seq<LineStopElement>
  {
    Somes(Lookups(db, tags))
  }

  /** `createStopList`: walk the tags in order, look each up in the stop
      list, skip the tags no stop matches and emit the others with their key. */
  method CreateStopList(stopDb: seq<Stop>, tags: seq<string>) returns (result: seq<LineStopElement>)
    ensures result == StopList(stopDb, tags)
  {
    result := [];
    for i := 0 to |tags|
      invariant result == StopList(stopDb, tags[..i])
    {
      assert tags[..i + 1] == tags[..i] + [tags[i]];
      StopListAppend(stopDb, tags[..i], tags[i]);
      var matchingStop := FindStop(stopDb, tags[i]);
      // skip not found data
      if matchingStop.None? {
        continue;
      }
      result := result + [ToElement(matchingStop.value)];
    }
    assert tags[..|tags|] == tags;
  }

  /** One more tag adds its element, when it finds a stop. */
  lemma StopListAppend(db: seq<Stop>, tags: seq<string>, tag: string)
    ensures StopList(db, tags + [tag]) == StopList(db, tags) + (if Lookup(db, tag).Some? then [Lookup(db, tag).value] else [])
  {
    assert Lookups(db, tags + [tag]) == Lookups(db, tags) + [Lookup(db, tag)];
    SomesAppend(Lookups(db, tags), Lookup(db, tag));
  }

  /** The positions of the tags that some stop matches. */
  function MatchedPositions(db: seq<Stop>, tags: seq<string>): seq<nat>
  {
    SomePositions(Lookups(db, tags))
  }

  /** There is one output element per matched tag, at most one per tag. */
  lemma StopListLength(db: seq<Stop>, tags: seq<string>)
    ensures |StopList(db, tags)| == |MatchedPositions(db, tags)| <= |tags|
  {
    SomesAt(Lookups(db, tags));
  }

  /** Element `k` of the stop list comes from the `k`-th matched tag: it
      is that tag's first matching stop, keyed by its id. */
  lemma StopListAt(db: seq<Stop>, tags: seq<string>, k: nat)
    requires k < |StopList(db, tags)|
    ensures k < |MatchedPositions(db, tags)|
    ensures var i := MatchedPositions(db, tags)[k];
      && i < |tags| && FindStop(db, tags[i]).Some?
      && StopList(db, tags)[k] == ToElement(FindStop(db, tags[i]).value)
      && StopList(db, tags)[k].key == StopList(db, tags)[k].id == FindStop(db, tags[i]).value.id
  {
    SomesAt(Lookups(db, tags));
  }

  /** The matched positions are increasing, so the output follows the
      order of the tags. */
  lemma MatchedPositionsIncrease(db: seq<Stop>, tags: seq<string>)
    ensures forall k :: 0 <= k < |MatchedPositions(db, tags)| ==> MatchedPositions(db, tags)[k] < |tags|
    ensures forall k, l :: 0 <= k < l < |MatchedPositions(db, tags)| ==>
              MatchedPositions(db, tags)[k] < MatchedPositions(db, tags)[l]
  {
    SomePositionsIncrease(Lookups(db, tags));
  }

  /** Every tag that matches a stop is among the matched positions. */
  lemma MatchedPositionsComplete(db: seq<Stop>, tags: seq<string>, i: nat)
    requires i < |tags| && FindStop(db, tags[i]).Some?
    ensures i in MatchedPositions(db, tags)
  {
    SomePositionsComplete(Lookups(db, tags), i);
  }

  /** A tag that no stop matches, a non-numeric one included, is skipped. */
  lemma UnmatchedTagIsSkipped(db: seq<Stop>, before: seq<string>, tag: string)
    requires forall j :: 0 <= j < |db| ==> !IdMatches(ParseInt(tag), db[j])
    ensures StopList(db, before + [tag]) == StopList(db, before)
  {
    FindStopIsFirstMatch(db, tag);
    StopListAppend(db, before, tag);
  }

  /** Without primary data there is no stop to find, so every stop list
      is empty. */
  lemma StopListWithoutData(tags: seq<string>)
    ensures StopList(StopDb(None), tags) == []
  {
    SomesOfNones(Lookups(StopDb(None), tags));
  }

  /** A tag that does not parse as a number never matches a stop. */
  lemma NonNumericTagMatchesNothing(db: seq<Stop>, tag: string)
    requires ParseInt(tag).None?
    ensures FindStop(db, tag).None?
  {
    FindStopIsFirstMatch(db, tag);
  }

  // ---------------------------------------------------------------
  // Directions
  // ---------------------------------------------------------------

  /** The direction names of the branches, in order. */
  function Names(directions: seq<RouteDirection>): seq<string>
  {
    seq(|directions|, i requires 0 <= i < |directions| => directions[i].name)
  }

  /** The contents of a JavaScript `Set` after adding `names` in order:
      each name once, in the order it was first added. */
  function DistinctInOrder(names: seq<string>): seq<string>
  {
    if |names| == 0 then []
    else
      var prior := DistinctInOrder(names[..|names| - 1]);
      var x := names[|names| - 1];
      if x in prior then prior else prior + [x]
  }

  /** `directions`: a `Set` filled by `forEach`/`add` over the branches,
      read back with `Array.from(directions.values())`. */
  method CollectDirections(directions: seq<RouteDirection>) returns (directionsArr: seq<string>)
    ensures directionsArr == DistinctInOrder(Names(directions))
  {
    var directionSet: seq<string> := [];
    var i := 0;
    while i < |directions|
      invariant 0 <= i <= |directions|
      invariant directionSet == DistinctInOrder(Names(directions)[..i])
    {
      assert Names(directions)[..i + 1][..i] == Names(directions)[..i];
      var name := directions[i].name;
      if name !in directionSet {
        directionSet := directionSet + [name];
      }
      i := i + 1;
    }
    assert Names(directions)[..i] == Names(directions);
    directionsArr := directionSet;
  }

  /** The position of the first occurrence of `x` in `s`. */
  function FirstIndex(s: seq<string>, x: string): (k: nat)
    requires x in s
    ensures k < |s| && s[k] == x && forall i :: 0 <= i < k ==> s[i] != x
  {
    if s[0] == x then 0 else 1 + FirstIndex(s[1..], x)
  }

  lemma {:induction false} FirstIndexIsFirstOccurrence(s: seq<string>, x: string, a: nat)
    requires a < |s| && s[a] == x && forall i :: 0 <= i < a ==> s[i] != x
    ensures FirstIndex(s, x) == a
  {
    if a > 0 {
      FirstIndexIsFirstOccurrence(s[1..], x, a - 1);
    }
  }

  lemma FirstIndexOfPrefix(s: seq<string>, n: nat, x: string)
    requires n <= |s| && x in s[..n]
    ensures x in s && FirstIndex(s, x) == FirstIndex(s[..n], x)
  {
    var j := FirstIndex(s[..n], x);
    assert s[..n][j] == s[j];
    assert forall i :: 0 <= i < j ==> s[..n][i] == s[i];
    FirstIndexIsFirstOccurrence(s, x, j);
  }

  /** The direction list holds each direction name exactly once, holds
      every name of a branch and nothing else, and lists the names in the
      order of their first occurrence. */
  lemma {:induction false} DistinctInOrderIsFirstOccurrences(names: seq<string>)
    ensures forall i, j :: 0 <= i < j < |DistinctInOrder(names)| ==> DistinctInOrder(names)[i] != DistinctInOrder(names)[j]
    ensures forall x :: x in DistinctInOrder(names) <==> x in names
    ensures forall i, j :: 0 <= i < j < |DistinctInOrder(names)| ==>
              FirstIndex(names, DistinctInOrder(names)[i]) < FirstIndex(names, DistinctInOrder(names)[j])
  {
    if |names| > 0 {
      var n := |names| - 1;
      var init := names[..n];
      var x := names[n];
      DistinctInOrderIsFirstOccurrences(init);
      var prior := DistinctInOrder(init);
      var r := DistinctInOrder(names);
      assert names == init + [x];
      forall y | y in names ensures y in init || y == x {
        var k :| 0 <= k < |names| && names[k] == y;
        if k < n { assert init[k] == y; }
      }
      forall i, j | 0 <= i < j < |r| ensures FirstIndex(names, r[i]) < FirstIndex(names, r[j]) {
        FirstIndexOfPrefix(names, n, r[i]);
        if j < |prior| {
          FirstIndexOfPrefix(names, n, r[j]);
        } else {
          assert r[j] == x && x !in init;
          FirstIndexIsFirstOccurrence(names, x, n);
        }
      }
    }
  }

  // ---------------------------------------------------------------
  // Accordions of one direction
  // ---------------------------------------------------------------

  /** One `StopAccordions` element: keyed by the branch tag, with its
      position among the accordions of its direction. */
  datatype StopAccordion = StopAccordion(key: string, index: nat, title: string, direction: string,
                                         lineNum: string, result: seq<LineStopElement>, tag: string)

  /** The branches whose direction name is `direction`. */
  function BranchesOf(directions: seq<RouteDirection>, direction: string): seq<RouteDirection>
  {
    Filter(directions, (line: RouteDirection) => direction == line.name)
  }

  /** `accordionList(direction)`: one accordion per branch of that
      direction, in order, each with the stop list of its tags. */
  function AccordionList(directions: seq<RouteDirection>, stopDb: seq<Stop>, direction: string): seq<StopAccordion>
  {
    var lines := BranchesOf(directions, direction);
    seq(|lines|, k requires 0 <= k < |lines| =>
      StopAccordion(lines[k].tag, k, lines[k].title, lines[k].name, lines[k].branch,
                    StopList(stopDb, lines[k].stopTags), lines[k].tag))
  }

  /** The accordions of a direction are exactly its branches, in the
      order of the route, each numbered by its position, and an accordion
      opens its item "0" exactly when it holds a single item. */
  lemma AccordionListIsBranchesOf(directions: seq<RouteDirection>, stopDb: seq<Stop>, direction: string)
    ensures var items, lines := AccordionList(directions, stopDb, direction), BranchesOf(directions, direction);
      && |items| == |lines|
      && (forall k :: 0 <= k < |items| ==>
            (items[k].index == k && items[k].direction == direction
             && items[k].tag == lines[k].tag && items[k].result == StopList(stopDb, lines[k].stopTags)))
      && (forall k :: 0 <= k < |lines| ==> lines[k] in directions && lines[k].name == direction)
      && (forall i :: 0 <= i < |directions| && directions[i].name == direction ==> directions[i] in lines)
      && (forall x :: multiset(lines)[x] == if x.name == direction then multiset(directions)[x] else 0)
      && IsSubsequence(lines, directions)
      && (DefaultOpenItems(items) == "0" <==> |lines| == 1)
  {
    FilterIsSubsequence(directions, (line: RouteDirection) => direction == line.name);
    FilterKeepsExactlyPassing(directions, (line: RouteDirection) => direction == line.name);
  }

  /** `accordionItems.length === 1 ? "0" : ""`. */
  function DefaultOpenItems(items: seq<StopAccordion>): string {
    if |items| == 1 then "0" else ""
  }

  // ---------------------------------------------------------------
  // Direction tabs
  // ---------------------------------------------------------------

  /** One `Accordion` of the tab view: the direction, its items, the item
      opened at first and whether it is hidden. */
  datatype DirectionPanel = DirectionPanel(direction: string, items: seq<StopAccordion>, defaultOpenItems: string, hidden: bool)

  /** The panels, one per direction of `directionsArr`; the panel of any
      direction other than the selected one is hidden. */
  function Panels(directions: seq<RouteDirection>, stopDb: seq<Stop>, directionsArr: seq<string>,
                  enabledDir: Option<string>): (ps: seq<DirectionPanel>)
    ensures |ps| == |directionsArr|
  {
    seq(|directionsArr|, j requires 0 <= j < |directionsArr| =>
      var items := AccordionList(directions, stopDb, directionsArr[j]);
      DirectionPanel(directionsArr[j], items, DefaultOpenItems(items), enabledDir != Some(directionsArr[j])))
  }

  /** Over distinct directions, each panel opens its item "0" exactly
      when its direction has a single branch, and the shown panel is the
      selected direction's: at most one panel is shown, exactly one when the
      selection is one of the directions, and none otherwise. */
  lemma PanelsShowSelectedOnly(directions: seq<RouteDirection>, stopDb: seq<Stop>, directionsArr: seq<string>,
                               enabledDir: Option<string>)
    requires forall i, j :: 0 <= i < j < |directionsArr| ==> directionsArr[i] != directionsArr[j]
    ensures var ps := Panels(directions, stopDb, directionsArr, enabledDir);
      && (forall j :: 0 <= j < |ps| ==>
            (ps[j].direction == directionsArr[j]
             && ps[j].items == AccordionList(directions, stopDb, directionsArr[j])
             && (ps[j].defaultOpenItems == "0" <==> |BranchesOf(directions, directionsArr[j])| == 1)
             && (ps[j].defaultOpenItems == "0" || ps[j].defaultOpenItems == "")
             && (!ps[j].hidden <==> enabledDir == Some(directionsArr[j]))))
      && (forall j, k :: 0 <= j < |ps| && 0 <= k < |ps| && !ps[j].hidden && !ps[k].hidden ==> j == k)
      && ((exists j :: 0 <= j < |ps| && !ps[j].hidden) <==> enabledDir.Some? && enabledDir.value in directionsArr)
  {
    var ps := Panels(directions, stopDb, directionsArr, enabledDir);
    forall j | 0 <= j < |ps|
      ensures ps[j].defaultOpenItems == "0" <==> |BranchesOf(directions, directionsArr[j])| == 1
    {
      AccordionListIsBranchesOf(directions, stopDb, directionsArr[j]);
    }
    if enabledDir.Some? && enabledDir.value in directionsArr {
      var j :| 0 <= j < |directionsArr| && directionsArr[j] == enabledDir.value;
      assert !ps[j].hidden;
    }
  }

  /** The selected direction after the render: an empty selection (the
      initial state) becomes the first direction, `undefined` if there is
      none. */
  function SettledDirection(enabledDir: Option<string>, directionsArr: seq<string>): Option<string> {
    if enabledDir == Some("") then First(directionsArr) else enabledDir
  }

  /** Once the initial empty selection has settled, the panel of the first
      direction is the only one shown; every branch of the route sits in
      the panel of its own direction name, and no panel is empty. */
  lemma SettledSelectionShowsFirstPanel(d: RouteData)
    requires |d.directions| > 0
    ensures var arr := DistinctInOrder(Names(d.directions));
      var ps := Panels(d.directions, d.parsedStops, arr, SettledDirection(Some(""), arr));
      && |ps| > 0
      && (forall j :: 0 <= j < |ps| ==> (ps[j].hidden <==> j != 0))
      && (forall j :: 0 <= j < |ps| ==> |ps[j].items| > 0)
      && (forall i :: 0 <= i < |d.directions| ==> exists j :: 0 <= j < |ps| && ps[j].direction == d.directions[i].name)
  {
    var names := Names(d.directions);
    var arr := DistinctInOrder(names);
    DistinctInOrderIsFirstOccurrences(names);
    assert names[0] in names;
    assert names[0] in arr;
    var ps := Panels(d.directions, d.parsedStops, arr, SettledDirection(Some(""), arr));
    forall j | 0 <= j < |ps| ensures |ps[j].items| > 0 {
      assert arr[j] in names;
      var i :| 0 <= i < |names| && names[i] == arr[j];
      FilterKeepsExactlyPassing(d.directions, (line: RouteDirection) => arr[j] == line.name);
      assert d.directions[i] in BranchesOf(d.directions, arr[j]);
    }
    forall i | 0 <= i < |d.directions| ensures exists j :: 0 <= j < |ps| && ps[j].direction == d.directions[i].name {
      assert names[i] in arr;
      var j :| 0 <= j < |arr| && arr[j] == names[i];
      assert ps[j].direction == names[i];
    }
  }

  // ---------------------------------------------------------------
  // The page
  // ---------------------------------------------------------------

  /** One `SubwayAccordions` element of the fallback view. */
  datatype BranchAccordion = BranchAccordion(key: string, title: string, tag: string, stops: seq<string>)

  /** What the route page renders. */
  datatype RouteView =
    | BranchList(title: Option<string>, accordions: seq<BranchAccordion>)  // fallback feed
    | BasicRaw                                                             // fallback feed carrying an error
    | DirectionTabs(selected: Option<string>, tabs: seq<string>, panels: seq<DirectionPanel>, nextSelected: Option<string>)
    | NoLineInDb
    | ErrorMessage(text: string)
    | Loading
    | Offline

  /** A fallback branch is listed only when its headsign is truthy. */
  predicate HasHeadsign(b: BasicBranch) {
    TruthyOptString(b.headsign)
  }

  function BranchAccordions(branches: seq<BasicBranch>): seq<BranchAccordion> {
    var kept := Filter(branches, HasHeadsign);
    seq(|kept|, k requires 0 <= k < |kept| =>
      BranchAccordion(kept[k].gtfsId, kept[k].headsign.GetOr(""), kept[k].gtfsId, kept[k].stops))
  }

  /** `String(x)` for the error text, which may be `undefined`. */
  function ErrorString(text: Option<string>): string {
    text.GetOr("undefined")
  }

  const NoRoutePattern: string := "Could not get route "

  /** The route page: fallback data first (its title is the headsign of
      its first branch, which throws on an empty branch list), then the
      primary data (tabs, or one of the two error views), then the loading
      or offline message. */
  function RouteInfoView(primary: Option<RouteData>, basic: Option<BasicRouteData>, enabledDir: Option<string>,
                         online: bool): Eval<RouteView>
  {
    if basic.Some? then
      var data := basic.value;
      if !data.hasError then
        if |data.branches| == 0 then TypeError
        else Value(BranchList(data.branches[0].headsign, BranchAccordions(data.branches)))
      else Value(BasicRaw)
    else if primary.Some? then
      var data := primary.value;
      if data.error.None? then
        var arr := DistinctInOrder(Names(data.directions));
        Value(DirectionTabs(enabledDir, arr, Panels(data.directions, StopDb(primary), arr, enabledDir),
                            SettledDirection(enabledDir, arr)))
      else
        var errorString := ErrorString(data.error.value.text);
        if Contains(errorString, NoRoutePattern) then Value(NoLineInDb)
        else Value(ErrorMessage("Error: " + errorString))
    else if online then Value(Loading)
    else Value(Offline)
  }

  /** Fallback data, when present, decides the view whatever the primary
      data is; the fallback list keeps exactly the branches with a
      headsign, in order, each accordion titled by the headsign and
      carrying the branch's stops, and an empty fallback list throws. */
  lemma FallbackTakesPrecedence(primary: Option<RouteData>, b: BasicRouteData, enabledDir: Option<string>, online: bool)
    ensures var v := RouteInfoView(primary, Some(b), enabledDir, online);
      && (b.hasError ==> v == Value(BasicRaw))
      && (!b.hasError && |b.branches| == 0 ==> v == TypeError)
      && (!b.hasError && |b.branches| > 0 ==>
            v.Value? && v.value.BranchList? && v.value.title == b.branches[0].headsign
            && |v.value.accordions| == |Filter(b.branches, HasHeadsign)| <= |b.branches|
            && (forall k :: 0 <= k < |v.value.accordions| ==>
                  v.value.accordions[k].key == Filter(b.branches, HasHeadsign)[k].gtfsId
                  && v.value.accordions[k].tag == Filter(b.branches, HasHeadsign)[k].gtfsId
                  && Some(v.value.accordions[k].title) == Filter(b.branches, HasHeadsign)[k].headsign
                  && TruthyString(v.value.accordions[k].title)
                  && v.value.accordions[k].stops == Filter(b.branches, HasHeadsign)[k].stops))
      && IsSubsequence(Filter(b.branches, HasHeadsign), b.branches)
  {
    FilterIsSubsequence(b.branches, HasHeadsign);
    FilterKeepsExactlyPassing(b.branches, HasHeadsign);
    var kept := Filter(b.branches, HasHeadsign);
    assert forall k :: 0 <= k < |kept| ==> HasHeadsign(kept[k]);
  }

  /** Without fallback data, a primary response that names an error gives
      the "no line in DB" view exactly when its text contains
      "Could not get route ", and the generic error view otherwise; a
      missing text reads as "undefined". */
  lemma PrimaryErrorViews(d: RouteData, enabledDir: Option<string>, online: bool)
    requires d.error.Some?
    ensures var v := RouteInfoView(Some(d), None, enabledDir, online);
      var text := ErrorString(d.error.value.text);
      && (v == Value(NoLineInDb) <==> Contains(text, NoRoutePattern))
      && (v.Value? && v.value.ErrorMessage? <==> !Contains(text, NoRoutePattern))
      && (!Contains(text, NoRoutePattern) ==> v == Value(ErrorMessage("Error: " + text)))
      && (d.error.value.text.None? ==> v == Value(ErrorMessage("Error: undefined")))
  {
    if d.error.value.text.None? {
      assert ErrorString(d.error.value.text) == "undefined";
      assert "Error: " + "undefined" == "Error: undefined";
      NoPatternInUndefined();
    }
  }

  lemma NoPatternInUndefined()
    ensures !Contains("undefined", NoRoutePattern)
  {
    assert |"undefined"| < |NoRoutePattern|;
  }

  /** Without fallback data, a primary response without an error shows one
      tab per distinct direction, in first-occurrence order, selected by
      the current state; a panel opens item "0" exactly when its
      direction has a single branch, at most one panel is shown, and an
      empty selection settles on the first tab. */
  lemma PrimaryDataShowsDirections(d: RouteData, enabledDir: Option<string>, online: bool)
    requires d.error.None?
    ensures var v := RouteInfoView(Some(d), None, enabledDir, online);
      && v.Value? && v.value.DirectionTabs?
      && v.value.tabs == DistinctInOrder(Names(d.directions))
      && |v.value.panels| == |v.value.tabs|
      && (forall j :: 0 <= j < |v.value.panels| ==>
            (v.value.panels[j].direction == v.value.tabs[j]
             && v.value.panels[j].items == AccordionList(d.directions, d.parsedStops, v.value.tabs[j])
             && (v.value.panels[j].defaultOpenItems == "0" <==> |BranchesOf(d.directions, v.value.tabs[j])| == 1)))
      && (forall j, k ::
            (0 <= j < |v.value.panels| && 0 <= k < |v.value.panels| &&
             !v.value.panels[j].hidden && !v.value.panels[k].hidden) ==> j == k)
      && (enabledDir == Some("") && |d.directions| > 0 ==> v.value.nextSelected == Some(d.directions[0].name))
      && (enabledDir != Some("") ==> v.value.nextSelected == enabledDir)
  {
    var names := Names(d.directions);
    var arr := DistinctInOrder(names);
    DistinctInOrderIsFirstOccurrences(names);
    assert forall i, j :: 0 <= i < j < |arr| ==> arr[i] != arr[j];
    PanelsShowSelectedOnly(d.directions, d.parsedStops, arr, enabledDir);
    if |d.directions| > 0 {
      DistinctInOrderFirst(names);
    }
  }

  lemma {:induction false} DistinctInOrderFirst(names: seq<string>)
    requires |names| > 0
    ensures |DistinctInOrder(names)| > 0 && DistinctInOrder(names)[0] == names[0]
  {
    if |names| > 1 {
      DistinctInOrderFirst(names[..|names| - 1]);
    }
  }

  /** With neither feed's data the page waits, or says it is offline. */
  lemma NoDataViews(enabledDir: Option<string>, online: bool)
    ensures RouteInfoView(None, None, enabledDir, online) == Value(if online then Loading else Offline)
  {
  }
}
