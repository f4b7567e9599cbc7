# TTC arrivals: a Dafny model of the route, route-list, line-stop and bookmark views

This project models the decision logic of four React components of a
Toronto transit arrivals web app:

- `RouteInfo` (`FetchRoute.tsx`). It builds the stop list of each branch
  of a route, collects the route's direction names in first-seen order,
  lays out one hidden-or-shown panel per direction, and chooses between
  the fallback branch list, the primary direction tabs, the two error
  views, and the loading and offline messages.
- `RoutesInfo` (`FetchRouteList.tsx`). It cleans route titles with the
  pattern `/\d+-/`, chooses the primary route list over the fallback one,
  adds the subway cards, and builds the fixed jump bar.
- `FetchTtcLineStop` (`FetchTtcLineStop.tsx`). It decides which of the
  three prediction feeds is queried. It turns CSV minutes and
  `nextBusMinutes` into countdowns in seconds, and shows the basic bus
  view only when the primary one is absent. It also picks the stop name,
  the station title, and the line and type handed to the bookmark button.
- `BookmarkCardEta` (`BookmarkCardEta.tsx`). It tells bus stops from
  subway stops and merges and sorts the arrivals of all direction groups.
  It keeps the arrivals of the bookmarked lines, and picks the card's
  link, its direction label and its line list.

The JavaScript built-ins these rely on are modelled in their own modules:

- `JsText`:
  - `Number.parseInt`: leading white space, sign, `0x`, longest digit
    run. `NaN` is `None`.
  - `String(n)` for integers.
  - `split`, `join`, `indexOf`, `split(sep)[0]`.
- `Sequences`: `filter` and `find`.
- `JsValues`: truthiness, `undefined` as `None`, and a thrown `TypeError`
  as the `Eval.TypeError` outcome.

The ETA normaliser and the stop normaliser are not modelled. Their
outputs appear as fields of the response records (`TransitData.EtaGroup`,
`FetchRoute.RouteData.parsedStops`).

Where the source compares values, the model keeps JavaScript's rules:

- `===` never matches `NaN`, while `Array.prototype.includes` (SameValueZero) does.
- `line.line === item.line` is never true when the bookmark's line is an array.
- An empty array is truthy.
- `"".split(",")` is `[""]`.
- Reading a field of `[][0]` throws.

Code that updates variables in a loop is modelled as Dafny methods with
loops, each proved equal to a specification function:

- `createStopList` becomes `FetchRoute.CreateStopList`.
- Building the direction `Set` becomes `FetchRoute.CollectDirections`.
- The `templist` concatenation becomes `BookmarkCardEta.FlattenEtas`,
  inside `UnifiedEta`.
- The jump-bar loop becomes `FetchRouteList.JumpBar`.

## Model

| member | source | states |
|---|---|---|
| FetchRoute.StopDb | src/components/fetch/FetchRoute.tsx:42-47 | definition; its one property is stated by `StopListWithoutData` |
| FetchRoute.StopListWithoutData | src/components/fetch/FetchRoute.tsx:42-47 | without primary data the stop table is empty, so no tag finds a stop and every stop list is empty |
| FetchRoute.FindStop | src/components/fetch/FetchRoute.tsx:54-56 | definition; properties in `FindStopIsFirstMatch` and `NonNumericTagMatchesNothing` |
| FetchRoute.FindStopIsFirstMatch | src/components/fetch/FetchRoute.tsx:54-56 | the lookup returns the first stop whose id equals the parsed tag, and nothing exactly when no stop matches |
| FetchRoute.NonNumericTagMatchesNothing | src/components/fetch/FetchRoute.tsx:55 | a tag that parses to `NaN` matches no stop, because `===` never holds for `NaN` |
| FetchRoute.StopList | src/components/fetch/FetchRoute.tsx:49-71 | definition; properties in `StopListLength`, `StopListAt`, `MatchedPositionsIncrease`, `MatchedPositionsComplete` and `UnmatchedTagIsSkipped` |
| FetchRoute.CreateStopList | src/components/fetch/FetchRoute.tsx:49-71 | the loop's result equals the specification `StopList` of the tags |
| FetchRoute.StopListLength | src/components/fetch/FetchRoute.tsx:53-67 | there is one element per matched tag, never more than there are tags |
| FetchRoute.StopListAt | src/components/fetch/FetchRoute.tsx:53-67 | the k-th element is the found stop of the k-th matched tag, with its id as key |
| FetchRoute.MatchedPositionsIncrease | src/components/fetch/FetchRoute.tsx:53-67 | matched tags are taken in strictly increasing order, so the list keeps the tag order |
| FetchRoute.MatchedPositionsComplete | src/components/fetch/FetchRoute.tsx:53-67 | every tag that finds a stop contributes an element |
| FetchRoute.UnmatchedTagIsSkipped | src/components/fetch/FetchRoute.tsx:58-61 | a tag with no stop adds nothing to the list |
| FetchRoute.DistinctInOrder | src/components/fetch/FetchRoute.tsx:125-128 | definition; properties in `DistinctInOrderIsFirstOccurrences` and `DistinctInOrderFirst` |
| FetchRoute.CollectDirections | src/components/fetch/FetchRoute.tsx:125-128 | the loop over the directions yields the distinct names in first-seen order |
| FetchRoute.DistinctInOrderIsFirstOccurrences | src/components/fetch/FetchRoute.tsx:125-128 | the tab list has no duplicate, holds exactly the names that occur, and orders them by first occurrence |
| FetchRoute.DistinctInOrderFirst | src/components/fetch/FetchRoute.tsx:150-153 | the first tab is the first direction's name |
| FetchRoute.FirstIndex | src/components/fetch/FetchRoute.tsx:125-128 | the first position of a name that occurs |
| FetchRoute.FirstIndexIsFirstOccurrence | src/components/fetch/FetchRoute.tsx:125-128 | a position with no earlier copy of the name is the name's first position |
| FetchRoute.FirstIndexOfPrefix | src/components/fetch/FetchRoute.tsx:125-128 | a name's first position is the same in any prefix that contains it |
| FetchRoute.AccordionList | src/components/fetch/FetchRoute.tsx:129-149 | definition; properties in `AccordionListIsBranchesOf` |
| FetchRoute.AccordionListIsBranchesOf | src/components/fetch/FetchRoute.tsx:129-149 | there is one item per branch of the direction, in route order, indexed from 0, with that branch's stop list; the branches are exactly those named after the direction, each as many times as it occurs in the route; a single item opens at first |
| FetchRoute.Panels | src/components/fetch/FetchRoute.tsx:171-183 | one panel per tab; which panel is shown is stated by `PanelsShowSelectedOnly` |
| FetchRoute.PanelsShowSelectedOnly | src/components/fetch/FetchRoute.tsx:171-183 | each panel holds its tab's accordions, opens item "0" exactly when its direction has a single branch (otherwise opens nothing), and is shown exactly when its direction is the selected one; over distinct tabs at most one panel is shown, and one is shown exactly when the selection is one of the tabs |
| FetchRoute.SettledSelectionShowsFirstPanel | src/components/fetch/FetchRoute.tsx:150-153 | once the empty initial selection becomes the first direction, only the first panel is shown, no panel is empty, and every branch has a panel |
| FetchRoute.FallbackTakesPrecedence | src/components/fetch/FetchRoute.tsx:82-121 | fallback data decides the page: an error shows the raw data, an empty branch list throws, and otherwise it shows the first headsign and one accordion per branch with a headsign, in order, each keyed and tagged by the branch's id, titled by its headsign and carrying its stop list |
| FetchRoute.PrimaryErrorViews | src/components/fetch/FetchRoute.tsx:188-209 | an error text containing "Could not get route " shows the missing-line message; any other text, `undefined` included, shows "Error: " and the text |
| FetchRoute.NoPatternInUndefined | src/components/fetch/FetchRoute.tsx:189-190 | a missing error text reads as "undefined", which does not match the pattern |
| FetchRoute.PrimaryDataShowsDirections | src/components/fetch/FetchRoute.tsx:122-186 | error-free primary data shows the distinct direction tabs, each panel with its direction's branches and opening item "0" exactly when there is a single branch, at most one panel shown, and the empty selection moves to the first direction |
| FetchRoute.NoDataViews | src/components/fetch/FetchRoute.tsx:211-222 | with no data the page shows loading when online and the offline message otherwise |
| FetchRoute.RouteInfoView | src/components/fetch/FetchRoute.tsx:82-222 | definition; properties in `FallbackTakesPrecedence`, `PrimaryErrorViews`, `PrimaryDataShowsDirections` and `NoDataViews` |
| FetchRouteList.MatchEndIsMatch | src/components/fetch/FetchRouteList.tsx:12 | a greedy digit run plus a hyphen is exactly a match of `/\d+-/` at that position |
| FetchRouteList.FirstMatchIsLeftmost | src/components/fetch/FetchRouteList.tsx:12-13 | the search returns the leftmost match, or nothing exactly when nothing matches |
| FetchRouteList.ParseRouteTitle | src/components/fetch/FetchRouteList.tsx:11-17 | definition; properties in `ParseRouteTitleRemovesLeftmostMatch` and the three example lemmas |
| FetchRouteList.ParseRouteTitleRemovesLeftmostMatch | src/components/fetch/FetchRouteList.tsx:11-17 | a title is unchanged exactly when it has no match; otherwise only the leftmost match is cut out, which leaves the title at least 2 characters shorter |
| FetchRouteList.ParseRouteTitleDropsRouteNumber | src/components/fetch/FetchRouteList.tsx:11-17 | "504-King" becomes "King" |
| FetchRouteList.ParseRouteTitleNeedsAdjacentHyphen | src/components/fetch/FetchRouteList.tsx:11-17 | "504A-King" is unchanged |
| FetchRouteList.ParseRouteTitleRemovesOnce | src/components/fetch/FetchRouteList.tsx:11-17 | "10-100-X" becomes "100-X" |
| FetchRouteList.PrimaryListTakesPrecedence | src/components/fetch/FetchRouteList.tsx:26-40 | with primary data the subway cards come first, then one card per primary route in order; the fallback data is ignored and the raw response is shown |
| FetchRouteList.FallbackListWithoutPrimary | src/components/fetch/FetchRouteList.tsx:41-60 | without primary data there is one card per fallback route, linked to its parsed short name, with no subway card and no raw response |
| FetchRouteList.NoListNoCards | src/components/fetch/FetchRouteList.tsx:26-61 | with neither list there are no cards |
| FetchRouteList.RoutesInfoView | src/components/fetch/FetchRouteList.tsx:26-104 | definition; properties in `PrimaryListTakesPrecedence`, `FallbackListWithoutPrimary` and `NoListNoCards` |
| FetchRouteList.BasicCardLinks | src/components/fetch/FetchRouteList.tsx:48 | the link of a short name made of a number and any suffix that starts with a non-digit is that number, suffix dropped; after the number 0 the suffix must not start with `x`/`X`, which would make a hexadecimal literal |
| FetchRouteList.BasicCardLinksNaN | src/components/fetch/FetchRouteList.tsx:48 | an empty short name, or one starting with anything but white space, a sign or a digit, links to "NaN" |
| FetchRouteList.JumpbarAnchorTexts | src/components/fetch/FetchRouteList.tsx:109-112 | the table's route numbers print as "200", "300", "501" and "900" |
| FetchRouteList.JumpBar | src/components/fetch/FetchRouteList.tsx:106-126 | exactly five items in table order, keyed by index, linking to "#", "#200", "#300", "#501" and "#900" with their captions |
| FetchTtcLineStop.EnabledQueries | src/components/fetch/FetchTtcLineStop.tsx:40-65 | the subway feed runs iff the line is at most 6, and then no bus feed runs; a bus line always runs a bus feed; with no tag only the basic feed runs; with a tag the basic feed runs iff the primary one failed |
| FetchTtcLineStop.MinutesToSeconds | src/components/fetch/FetchTtcLineStop.tsx:98 | definition; properties in `MinutesOfPrinted` and `MinutesOfNonNumber` |
| FetchTtcLineStop.MinutesOfPrinted | src/components/fetch/FetchTtcLineStop.tsx:98 | a printed number of minutes, also after a leading space, counts down from 60 times that number |
| FetchTtcLineStop.MinutesOfNonNumber | src/components/fetch/FetchTtcLineStop.tsx:98 | an entry that is empty or starts with anything but white space, a sign or a digit counts down from `NaN` |
| FetchTtcLineStop.TtcSubwayEtas | src/components/fetch/FetchTtcLineStop.tsx:80-102 | definition; properties in `TtcSubwayEtasCases` and `TtcSubwayEtasFromMinutes` |
| FetchTtcLineStop.TtcSubwayEtasCases | src/components/fetch/FetchTtcLineStop.tsx:80-102 | no data or an erroring element shows nothing; an empty response or a missing `nextTrains` throws; otherwise one countdown per comma-separated entry, in order, so the no-ETA reminder never appears |
| FetchTtcLineStop.TtcSubwayEtasFromMinutes | src/components/fetch/FetchTtcLineStop.tsx:83-101 | a `nextTrains` of whole minutes counts down from each of them times 60 seconds, in order |
| FetchTtcLineStop.TtcBusEtaBasic | src/components/fetch/FetchTtcLineStop.tsx:104-123 | definition; properties in `TtcBusEtaBasicCases` |
| FetchTtcLineStop.TtcBusEtaBasicCases | src/components/fetch/FetchTtcLineStop.tsx:104-123 | with no first element the reminder shows exactly when the fetch has completed; otherwise one countdown per element, in order, at its minutes times 60 |
| FetchTtcLineStop.TtcBusEta | src/components/fetch/FetchTtcLineStop.tsx:125-140 | definition; properties in `BasicShownOnlyWithoutPrimary` |
| FetchTtcLineStop.PageEtas | src/components/fetch/FetchTtcLineStop.tsx:170-172 | definition; properties in `BasicShownOnlyWithoutPrimary` |
| FetchTtcLineStop.BasicShownOnlyWithoutPrimary | src/components/fetch/FetchTtcLineStop.tsx:125-140 | the primary bus view is absent exactly without a response that has predictions; the basic view appears only then, and a response with predictions but no direction group still hides it |
| FetchTtcLineStop.StopName | src/components/fetch/FetchTtcLineStop.tsx:142-147 | definition; properties in `StopNameSources` |
| FetchTtcLineStop.StopNameSources | src/components/fetch/FetchTtcLineStop.tsx:142-147 | a subway line's stop name is the feed's `directionText` (an empty response throws) and a bus line's is the stop title, each defaulting to "" |
| FetchTtcLineStop.StationTitle | src/components/fetch/FetchTtcLineStop.tsx:154 | definition; properties in `StationTitleOfJoined` |
| FetchTtcLineStop.HyphenOfOccurrence | src/components/fetch/FetchTtcLineStop.tsx:154 | an occurrence of " - " is a space directly followed by a hyphen |
| FetchTtcLineStop.StationTitleOfJoined | src/components/fetch/FetchTtcLineStop.tsx:154 | "station - rest" is titled "station" whenever the station part has no space directly before a hyphen (hyphenated names such as "Bloor-Yonge" included), and such a station part is its own title |
| FetchTtcLineStop.Headings | src/components/fetch/FetchTtcLineStop.tsx:151-158 | definition; properties in `HeadingsCount` |
| FetchTtcLineStop.HeadingsCount | src/components/fetch/FetchTtcLineStop.tsx:151-158 | a bus line shows the stop title first; a known station adds its title and the stop name |
| FetchTtcLineStop.BookmarkLines | src/components/fetch/FetchTtcLineStop.tsx:166 | definition; properties in `BookmarkAgreesWithFeeds` |
| FetchTtcLineStop.BookmarkKind | src/components/fetch/FetchTtcLineStop.tsx:167 | definition; properties in `BookmarkAgreesWithFeeds` |
| FetchTtcLineStop.BookmarkAgreesWithFeeds | src/components/fetch/FetchTtcLineStop.tsx:166-167 | the bookmark is typed as subway, and the bookmark card classes it as a subway station, exactly when this page queries the subway feed |
| BookmarkCardEta.StationTypeOf | src/components/eta/BookmarkCardEta.tsx:12-13 | definition; properties in `StationTypeOfNumber`, `StationTypeOfNonNumber` and `StationTypeOfManyIsFirst` |
| BookmarkCardEta.StationTypeOfNumber | src/components/eta/BookmarkCardEta.tsx:12-13 | a line whose printed number is above 6 is a bus stop, and any other printed number a subway stop |
| BookmarkCardEta.StationTypeOfNonNumber | src/components/eta/BookmarkCardEta.tsx:12-13 | a line that does not parse as a number is a subway stop |
| BookmarkCardEta.StationTypeOfManyIsFirst | src/components/eta/BookmarkCardEta.tsx:12-13 | any non-empty list of lines is classed by its first line alone, whatever that line is, because `parseInt` stops at the first comma |
| BookmarkCardEta.FlattenEtas | src/components/eta/BookmarkCardEta.tsx:38-43 | the loop concatenates each group's arrivals in group order, skipping groups without a list |
| BookmarkCardEta.FlattenConcat | src/components/eta/BookmarkCardEta.tsx:38-43 | the groups contribute in order: flattening a concatenation concatenates the flattenings |
| BookmarkCardEta.GroupWithoutEtasAddsNothing | src/components/eta/BookmarkCardEta.tsx:40 | a group without `etas` contributes nothing |
| BookmarkCardEta.InsertByEpochPermutes | src/components/eta/BookmarkCardEta.tsx:44 | inserting adds exactly one element |
| BookmarkCardEta.InsertByEpochKeepsOrder | src/components/eta/BookmarkCardEta.tsx:44 | inserting into a sorted list keeps it sorted and keeps every lower bound |
| BookmarkCardEta.SortByEpoch | src/components/eta/BookmarkCardEta.tsx:44 | definition; properties in `SortByEpochSortsAndPermutes` and `SortByEpochIsStable` |
| BookmarkCardEta.SortByEpochSortsAndPermutes | src/components/eta/BookmarkCardEta.tsx:44 | the sorted list ascends by `epochTime` and is a permutation of its input |
| BookmarkCardEta.InsertByEpochAtEpoch | src/components/eta/BookmarkCardEta.tsx:44 | inserting places the new element before every element with the same time |
| BookmarkCardEta.SortByEpochIsStable | src/components/eta/BookmarkCardEta.tsx:44 | entries with the same time keep their relative order |
| BookmarkCardEta.UnifiedEta | src/components/eta/BookmarkCardEta.tsx:29-48 | an object response gives all arrivals sorted by time, a stable permutation of the concatenation; an array response or no response gives the empty list |
| BookmarkCardEta.BusLines | src/components/eta/BookmarkCardEta.tsx:52-54 | definition; properties in `BusLinesOfPrinted` |
| BookmarkCardEta.BusLinesOfPrinted | src/components/eta/BookmarkCardEta.tsx:52-54 | a single printed line number, or a list of them, gives back those numbers, in order |
| BookmarkCardEta.FilterKeepsSortedByEpoch | src/components/eta/BookmarkCardEta.tsx:55-57 | filtering keeps a sorted list sorted |
| BookmarkCardEta.FilteredEta | src/components/eta/BookmarkCardEta.tsx:50-60 | definition; properties in `FilteredEtaKeepsBookmarkedLines` and `NaNLineKeepsNaNBranches` |
| BookmarkCardEta.FilteredEtaKeepsBookmarkedLines | src/components/eta/BookmarkCardEta.tsx:50-60 | a bus stop keeps exactly the arrivals whose parsed branch is a parsed bookmarked line, each as many times as it occurs, in order and still sorted; a subway stop gets `undefined` |
| BookmarkCardEta.NaNLineKeepsNaNBranches | src/components/eta/BookmarkCardEta.tsx:55-57 | under SameValueZero a non-numeric line keeps the non-numeric branches |
| BookmarkCardEta.SubwayEtas | src/components/eta/BookmarkCardEta.tsx:62-67 | definition; properties in `SubwayEtasJoinBack` |
| BookmarkCardEta.SubwayEtasJoinBack | src/components/eta/BookmarkCardEta.tsx:62-67 | the subway arrival list is non-empty and joins back to the feed's `nextTrains` |
| BookmarkCardEta.StopUrl | src/components/eta/BookmarkCardEta.tsx:69-76 | definition; properties in `StopUrlCases` |
| BookmarkCardEta.StopUrlCases | src/components/eta/BookmarkCardEta.tsx:69-76 | subway bookmarks, single lines and one-element line lists link to the line-and-stop page; any other line list links to the stop page |
| BookmarkCardEta.Name | src/components/eta/BookmarkCardEta.tsx:80-86 | definition; properties in `NameSources` |
| BookmarkCardEta.NameSources | src/components/eta/BookmarkCardEta.tsx:80-86 | a subway bookmark with a tag is named after its station, or after its route when the station is unknown; others keep their stop name |
| BookmarkCardEta.Direction | src/components/eta/BookmarkCardEta.tsx:88-96 | definition; properties in `DirectionIsFirstForLine` |
| BookmarkCardEta.DirectionIsFirstForLine | src/components/eta/BookmarkCardEta.tsx:88-96 | the direction is that of the first entry for the bookmarked line; the bookmark's own direction applies with no such entry, no `directions`, or a line list |
| BookmarkCardEta.Lines | src/components/eta/BookmarkCardEta.tsx:103-105 | definition; properties in `LinesWrapsScalar` |
| BookmarkCardEta.LinesWrapsScalar | src/components/eta/BookmarkCardEta.tsx:103-105 | a single line is wrapped into a one-element list that prints and classes the same as the line |
| JsText.ParseIntOfIntToString | src/components/fetch/FetchRouteList.tsx:48 | printing an integer and parsing it back gives the integer |
| JsText.ParseInt | src/components/eta/BookmarkCardEta.tsx:13 | definition; properties in `ParseIntOfIntToString`, `ParseIntStopsAt`, `ParseIntStopsAtComma`, `ParseIntOfDigits`, `NoLeadingNumberIsNaN` and `ParseIntSkipsWhiteSpace` |
| JsText.ParseIntStopsAt | src/components/eta/BookmarkCardEta.tsx:13 | whatever follows a character `parseInt` cannot read past (not white space, sign, `x` or hex digit) leaves its result unchanged |
| JsText.ParseIntStopsAtComma | src/components/eta/BookmarkCardEta.tsx:13 | any string followed by a comma and anything parses as the string alone |
| JsText.ParseIntOfDigits | src/components/eta/BookmarkCardEta.tsx:13 | a run of digits followed by nothing or by a non-digit parses as the decimal value of the run, except that "0" followed by `x` or `X` starts a hexadecimal number |
| JsText.NoLeadingNumberIsNaN | src/components/eta/BookmarkCardEta.tsx:13 | an empty string, or one starting with anything but white space, a sign or a digit, parses as `NaN` |
| JsText.ParseIntSkipsWhiteSpace | src/components/eta/BookmarkCardEta.tsx:13 | leading white space does not change what is parsed |
| JsText.Split | src/components/fetch/FetchTtcLineStop.tsx:83 | definition; properties in `JoinSplit`, `SplitShape` and `SplitJoin` |
| JsText.Join | src/components/eta/BookmarkCardEta.tsx:13 | definition (also the string form of an array); properties in `JoinSplit` and `SplitJoin` |
| JsText.JoinSplit | src/components/eta/BookmarkCardEta.tsx:64 | joining the pieces of a split gives the string back |
| JsText.SplitShape | src/components/fetch/FetchTtcLineStop.tsx:83 | a split has one piece more than there are separators, and no piece holds a separator |
| JsText.SplitJoin | src/components/fetch/FetchTtcLineStop.tsx:83 | splitting a join of separator-free pieces gives the pieces back |
| JsText.FirstSegment | src/components/fetch/FetchTtcLineStop.tsx:154 | the part before the first occurrence of the separator, or the whole string when it does not occur |
| JsText.IndexOf | src/components/fetch/FetchRoute.tsx:190 | the first position at or after the start where the text occurs, or none when it never does |
| Sequences.FilterKeepsExactlyPassing | src/components/fetch/FetchRoute.tsx:133 | the result holds only passing elements of the input, and holds every passing element as many times as the input does |
| Sequences.FilterIsSubsequence | src/components/fetch/FetchRoute.tsx:133 | a filter keeps the input's order |
| Sequences.FindIsFirstMatch | src/components/fetch/FetchRoute.tsx:54 | `find` returns the first passing element, and nothing exactly when none passes |

## Left out

- Rendering (JSX, Fluent UI components, translations) is not modelled. Each view is reduced to the data it would show.
- React hooks are not modelled.
  - `useMemo`/`useCallback` dependencies and memo staleness are left out. For example, `unifiedEta` is memoised on the bus response alone.
  - `useState` is left out. The `setEnabledDir` call made while rendering is modelled as the view's `nextSelected` output, and the refresh timestamp is left out.
- Queries are not modelled: fetching, retries, refetch intervals and placeholder data are left out.
  - A query's outcome is a parameter: its data as an `Option`, whether it failed, and `isFetched`.
  - `navigator.onLine` and the global store lookups (the subway station table, the subway line list) are also parameters.
- The stop normaliser and the ETA normaliser are not part of this model; their outputs are inputs here. The normaliser's de-duplication of stops is therefore not modelled. `FindStop` takes the first stop with a matching id, as the code's `find` does.
- `src/components/fetch/queries.ts`, `gtfs.ts`, `atproto.ts`, `StopVehiclesPosition.tsx` and `CurrentAlerts.tsx` are not part of this model.
- `RawDisplay` is not modelled: the choice of which raw response the line-stop page prints is left out.
- Numbers are unbounded integers.
  - `parseInt` results beyond 2^53 are not rounded to doubles.
  - Latitude and longitude are carried as reals and never computed with.
  - `BookmarkCardEta.SortByEpoch`: the comparator `a.epochTime - b.epochTime` is modelled as an exact integer comparison.
- `BookmarkCardEta.SortByEpoch`: the engine's in-place `Array.prototype.sort` is modelled by value as a stable insertion sort. The result is the same because ECMAScript requires a stable sort, but aliasing of the sorted array is not captured.
- Strings are sequences of Dafny characters rather than UTF-16 code units. White space for `parseInt` follows the ECMAScript StrWhiteSpaceChar set.
- `FetchRouteList.RouteItem`: the primary route `tag` is held as the text it prints as. The `route` list is assumed present whenever the response is.
- `FetchRoute.RouteData`: `data.route.direction` and each direction's `stop` list are assumed present arrays; the code throws without them, and the model has no such case.
- The `enabled: !!…error` flags of the fallback queries (`FetchRoute.tsx` line 39, `FetchRouteList.tsx` line 23) are not modelled. The fallback data is an independent input of `RouteInfoView` and `RoutesInfoView`, so their lemmas hold for every combination of primary and fallback data, the ones the flag rules out included.
- `FetchRouteList`'s jump-bar markup inside a comment is dead code and is not modelled.
- `FetchTtcLineStop.TtcBusEtaBasic`: the second emptiness check cannot fire after the first, so it has no branch.
- `FetchTtcLineStop.TtcSubwayEtas`: its no-ETA branch is kept. `TtcSubwayEtasCases` proves that branch unreachable.
- Elements of the subway and basic-bus feeds are assumed to be objects (truthy).
