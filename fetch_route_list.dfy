/** The list of all lines (`RoutesInfo`): the route-title cleanup, the
    choice between the primary and the fallback route list, the subway
    cards and the fixed jump bar. */
module FetchRouteList {
  import opened JsValues
  import opened JsText

  // ---------------------------------------------------------------
  // parseRouteTitle
  // ---------------------------------------------------------------

  /** `/\d+-/` matches `s[p..q]`: one or more decimal digits followed by
      a hyphen. */
  predicate IsTitleMatch(s: string, p: nat, q: nat) {
    p + 2 <= q <= |s| && (forall i :: p <= i < q - 1 ==> IsDecimalDigit(s[i])) && s[q - 1] == '-'
  }

  /** The end of the match of `/\d+-/` that starts at `p`, if there is
      one: the greedy `\d+` takes the whole run of digits, and the match
      succeeds only when a hyphen follows the run (a shorter run is
      followed by a digit, so backtracking finds nothing else). */
  function MatchEnd(s: string, p: nat): Option<nat>
    requires p <= |s|
  {
    var n := DigitPrefixLength(s[p..], 10);
    if n > 0 && p + n < |s| && s[p + n] == '-' then Some(p + n + 1) else None
  }

  /** The leftmost match at or after `from`, as its start and end. */
  function FirstMatch(s: string, from: nat): (r: Option<(nat, nat)>)
    requires from <= |s|
    ensures r.Some? ==> from <= r.value.0 && r.value.0 + 2 <= r.value.1 <= |s|
    decreases |s| - from
  {
    if from == |s| then None
    else match MatchEnd(s, from)
      case Some(q) => Some((from, q))
      case None => FirstMatch(s, from + 1)
  }

  /** `parseRouteTitle`: remove the leftmost match of `/\d+-/` (the
      pattern has no `g` flag, so only that one), or return the input
      when nothing matches. */
  function ParseRouteTitle(input: string): string {
    match FirstMatch(input, 0)
    case None => input
    case Some((p, q)) => input[..p] + input[q..]
  }

  /** `MatchEnd` finds exactly the matches of the pattern: a match
      starting at `p` ends where `MatchEnd` says, and nowhere else. */
  lemma MatchEndIsMatch(s: string, p: nat, q: nat)
    requires p <= |s|
    ensures MatchEnd(s, p) == Some(q) <==> IsTitleMatch(s, p, q)
  {
    var t := s[p..];
    var n := DigitPrefixLength(t, 10);
    if IsTitleMatch(s, p, q) {
      forall i | 0 <= i < q - 1 - p ensures IsDecimalDigit(t[i]) {
        assert t[i] == s[p + i];
      }
      assert t[q - 1 - p] == '-';
      DigitPrefixOfDigits(t[..q - 1 - p], t[q - 1 - p..]);
      assert t[..q - 1 - p] + t[q - 1 - p..] == t;
    }
    if MatchEnd(s, p) == Some(q) {
      forall i | p <= i < q - 1 ensures IsDecimalDigit(s[i]) {
        assert s[i] == t[i - p];
      }
    }
  }

  /** `FirstMatch` returns the leftmost match at or after `from`, and
      returns nothing exactly when there is none. */
  lemma {:induction false} FirstMatchIsLeftmost(s: string, from: nat)
    requires from <= |s|
    ensures FirstMatch(s, from).None? <==>
              forall p: nat, q: nat :: from <= p <= |s| ==> !IsTitleMatch(s, p, q)
    ensures FirstMatch(s, from).Some? ==>
              var (p, q) := FirstMatch(s, from).value;
              && from <= p && IsTitleMatch(s, p, q)
              && forall p': nat, q': nat :: from <= p' < p ==> !IsTitleMatch(s, p', q')
    decreases |s| - from
  {
    if from < |s| {
      match MatchEnd(s, from)
      case Some(q) =>
        MatchEndIsMatch(s, from, q);
        assert FirstMatch(s, from) == Some((from, q));
      case None =>
        forall q: nat ensures !IsTitleMatch(s, from, q) {
          MatchEndIsMatch(s, from, q);
        }
        FirstMatchIsLeftmost(s, from + 1);
        assert FirstMatch(s, from) == FirstMatch(s, from + 1);
    }
  }

  /** A title with a digit run followed by a hyphen loses the leftmost
      such run and its hyphen and keeps everything else, in order, so it
      is at least two characters shorter; a title without one is
      returned unchanged. */
  lemma ParseRouteTitleRemovesLeftmostMatch(input: string)
    ensures (forall p: nat, q: nat :: p <= |input| ==> !IsTitleMatch(input, p, q)) <==> ParseRouteTitle(input) == input
    ensures (exists p: nat, q: nat :: p <= |input| && IsTitleMatch(input, p, q)) ==>
              exists p: nat, q: nat ::
                && IsTitleMatch(input, p, q)
                && (forall p': nat, q': nat :: p' < p ==> !IsTitleMatch(input, p', q'))
                && ParseRouteTitle(input) == input[..p] + input[q..]
                && |ParseRouteTitle(input)| == |input| - (q - p) <= |input| - 2
  {
    FirstMatchIsLeftmost(input, 0);
    if FirstMatch(input, 0).Some? {
      var (p, q) := FirstMatch(input, 0).value;
      assert |ParseRouteTitle(input)| == |input| - (q - p);
    }
  }

  /** The digits and the hyphen go: "504-King" becomes "King". */
  lemma ParseRouteTitleDropsRouteNumber()
    ensures ParseRouteTitle("504-King") == "King"
  {
    var a := "504-King";
    assert a[0..] == "504" + "-King";
    DigitPrefixOfDigits("504", "-King");
    assert MatchEnd(a, 0) == Some(4);
    assert a[4..] == "King";
  }

  /** The hyphen must follow the digits at once: "504A-King" is returned
      as it is. */
  lemma ParseRouteTitleNeedsAdjacentHyphen()
    ensures ParseRouteTitle("504A-King") == "504A-King"
  {
    var b := "504A-King";
    forall p: nat, q: nat | p <= |b| ensures !IsTitleMatch(b, p, q) {
      if p + 2 <= q <= |b| && b[q - 1] == '-' {
        assert q == 5;
        assert !IsDecimalDigit(b[3]);
      }
    }
    FirstMatchIsLeftmost(b, 0);
  }

  /** Only the leftmost match goes: "10-100-X" becomes "100-X". */
  lemma ParseRouteTitleRemovesOnce()
    ensures ParseRouteTitle("10-100-X") == "100-X"
  {
    var c := "10-100-X";
    assert c[0..] == "10" + "-100-X";
    DigitPrefixOfDigits("10", "-100-X");
    assert MatchEnd(c, 0) == Some(3);
    assert c[3..] == "100-X";
  }

  // ---------------------------------------------------------------
  // Route cards
  // ---------------------------------------------------------------

  /** One route of the primary list; `tag` is the route number as it
      prints. */
  datatype RouteItem = RouteItem(tag: string, title: string)

  /** One route of the fallback list. */
  datatype BasicLine = BasicLine(shortName: string, longName: string)

  /** One entry of the built-in subway line table. */
  datatype SubwayLine = SubwayLine(line: int, name: string)

  /** One card of the list: its key, its element id (subway cards have
      none), the link, the badge text and the cleaned-up title. */
  datatype RouteCard = RouteCard(key: string, id: Option<string>, href: string, lineNum: string, title: string)

  function PrimaryCard(r: RouteItem): RouteCard {
    RouteCard(r.tag, Some(r.tag), "/lines/" + r.tag, r.tag, ParseRouteTitle(r.title))
  }

  /** A fallback card links to the parsed short name, so a short name
      with no leading number links to "/lines/NaN". */
  function BasicCard(b: BasicLine): RouteCard {
    RouteCard(b.shortName, Some(b.shortName), "/lines/" + NumberToString(ParseInt(b.shortName)), b.shortName,
              ParseRouteTitle(b.longName))
  }

  function SubwayCard(l: SubwayLine): RouteCard {
    var n := IntToString(l.line);
    RouteCard(n, None, "/lines/" + n, n, ParseRouteTitle(l.name))
  }

  /** `SubwayCards`: one card per entry of the subway line table. */
  function SubwayCards(subwayLines: seq<SubwayLine>): seq<RouteCard> {
    seq(|subwayLines|, i requires 0 <= i < |subwayLines| => SubwayCard(subwayLines[i]))
  }

  /** `routesCards`: the cards of the primary list when it has arrived,
      else those of the fallback list, else nothing. */
  function RoutesCards(primary: Option<seq<RouteItem>>, basic: Option<seq<BasicLine>>): Option<seq<RouteCard>> {
    if primary.Some? then Some(seq(|primary.value|, i requires 0 <= i < |primary.value| => PrimaryCard(primary.value[i])))
    else if basic.Some? then Some(seq(|basic.value|, i requires 0 <= i < |basic.value| => BasicCard(basic.value[i])))
    else None
  }

  /** What `RoutesInfo` renders under the jump bar: the list items, and
      whether the raw primary response is shown. */
  datatype RouteListView = RouteListView(items: seq<RouteCard>, showsRaw: bool)

  /** The subway cards precede the route cards, and both they and the raw
      response appear only with primary data. */
  function RoutesInfoView(primary: Option<seq<RouteItem>>, basic: Option<seq<BasicLine>>,
                          subwayLines: seq<SubwayLine>): RouteListView {
    RouteListView((if primary.Some? then SubwayCards(subwayLines) else []) + RoutesCards(primary, basic).GetOr([]),
                  primary.Some?)
  }

  /** With primary data the list is the subway cards followed by one card
      per primary route, in order, whatever the fallback holds, and the
      raw response is shown. */
  lemma PrimaryListTakesPrecedence(primary: seq<RouteItem>, basic: Option<seq<BasicLine>>,
                                   subwayLines: seq<SubwayLine>)
    ensures var v := RoutesInfoView(Some(primary), basic, subwayLines);
      && v == RoutesInfoView(Some(primary), None, subwayLines)
      && v.showsRaw
      && |v.items| == |subwayLines| + |primary|
      && (forall i :: 0 <= i < |subwayLines| ==>
            v.items[i].href == "/lines/" + IntToString(subwayLines[i].line) && v.items[i].id.None?)
      && (forall i :: 0 <= i < |primary| ==>
            var c := v.items[|subwayLines| + i];
            c.href == "/lines/" + primary[i].tag && c.id == Some(primary[i].tag)
            && c.title == ParseRouteTitle(primary[i].title))
  {
    var v := RoutesInfoView(Some(primary), basic, subwayLines);
    assert v.items == SubwayCards(subwayLines) + RoutesCards(Some(primary), basic).value;
  }

  /** Without primary data the list is one card per fallback route, in
      order, with no subway card and no raw response. */
  lemma FallbackListWithoutPrimary(basic: seq<BasicLine>, subwayLines: seq<SubwayLine>)
    ensures var v := RoutesInfoView(None, Some(basic), subwayLines);
      && !v.showsRaw
      && |v.items| == |basic|
      && (forall i :: 0 <= i < |basic| ==>
            var c := v.items[i];
            c.key == basic[i].shortName
            && c.href == "/lines/" + NumberToString(ParseInt(basic[i].shortName))
            && c.title == ParseRouteTitle(basic[i].longName))
  {
    var v := RoutesInfoView(None, Some(basic), subwayLines);
    assert v.items == RoutesCards(None, Some(basic)).value;
  }

  /** With neither list there is no card at all. */
  lemma NoListNoCards(subwayLines: seq<SubwayLine>)
    ensures RoutesInfoView(None, None, subwayLines) == RouteListView([], false)
  {
  }

  /** A fallback route whose short name is a number, possibly followed by
      a suffix such as a letter, links to that number. */
  lemma BasicCardLinks(n: nat, suffix: string, longName: string)
    requires |suffix| > 0 ==> !IsDecimalDigit(suffix[0]) && (n == 0 ==> suffix[0] != 'x' && suffix[0] != 'X')
    ensures BasicCard(BasicLine(IntToString(n) + suffix, longName)).href == "/lines/" + IntToString(n)
  {
    DigitsValueOfNatToDigits(n);
    assert NatToDigits(n) == "0" ==> n == 0 by {
      if n >= 10 { assert |NatToDigits(n)| > 1; }
    }
    ParseIntOfDigits(NatToDigits(n), suffix);
  }

  /** A fallback route whose short name is empty or starts with anything
      but white space, a sign or a digit links to "/lines/NaN". */
  lemma BasicCardLinksNaN(name: string, longName: string)
    requires |name| == 0 || (!IsStrWhiteSpace(name[0]) && !IsDecimalDigit(name[0]) && name[0] != '+' && name[0] != '-')
    ensures BasicCard(BasicLine(name, longName)).href == "/lines/NaN"
  {
    NoLeadingNumberIsNaN(name);
  }

  // ---------------------------------------------------------------
  // JumpBar
  // ---------------------------------------------------------------

  /** The anchor of a jump-bar entry: the empty string, or a route
      number. */
  datatype Anchor = Top | Section(n: nat)

  /** The jump-bar table: the regular routes, then the first route of each
      service class. */
  const JumpbarMap: seq<(Anchor, string)> :=
    [(Top, "Regular"), (Section(200), "Seasonal"), (Section(300), "Night"), (Section(501), "Streetcar"),
     (Section(900), "Express")]

  function AnchorText(a: Anchor): string {
    match a
    case Top => ""
    case Section(n) => IntToString(n)
  }

  /** One jump-bar link: its key, its target and its caption. */
  datatype JumpItem = JumpItem(key: nat, href: string, caption: string)

  /** The item the loop builds for row `index` of the table. */
  function JumpItemAt(index: nat): JumpItem
    requires index < |JumpbarMap|
  {
    JumpItem(index, "#" + AnchorText(JumpbarMap[index].0), JumpbarMap[index].1)
  }

  lemma JumpbarAnchorTexts()
    ensures AnchorText(Section(200)) == "200"
    ensures AnchorText(Section(300)) == "300"
    ensures AnchorText(Section(501)) == "501"
    ensures AnchorText(Section(900)) == "900"
  {
    assert NatToDigits(20) == NatToDigits(2) + [DigitChar(0)];
    assert NatToDigits(30) == NatToDigits(3) + [DigitChar(0)];
    assert NatToDigits(50) == NatToDigits(5) + [DigitChar(0)];
    assert NatToDigits(90) == NatToDigits(9) + [DigitChar(0)];
  }

  /** `JumpBar`: the loop pushes one item per table row; the result is
      the five links "#", "#200", "#300", "#501" and "#900", in table
      order, keyed by their index. */
  method JumpBar() returns (jumpbarItems: seq<JumpItem>)
    ensures |jumpbarItems| == |JumpbarMap| == 5
    ensures forall i :: 0 <= i < |jumpbarItems| ==> jumpbarItems[i] == JumpItemAt(i)
    ensures jumpbarItems[0] == JumpItem(0, "#", "Regular")
    ensures jumpbarItems[1] == JumpItem(1, "#200", "Seasonal")
    ensures jumpbarItems[2] == JumpItem(2, "#300", "Night")
    ensures jumpbarItems[3] == JumpItem(3, "#501", "Streetcar")
    ensures jumpbarItems[4] == JumpItem(4, "#900", "Express")
  {
    jumpbarItems := [];
    for index := 0 to |JumpbarMap|
      invariant |jumpbarItems| == index
      invariant forall i :: 0 <= i < index ==> jumpbarItems[i] == JumpItemAt(i)
    {
      jumpbarItems := jumpbarItems + [JumpItem(index, "#" + AnchorText(JumpbarMap[index].0), JumpbarMap[index].1)];
    }
    JumpbarAnchorTexts();
    assert "#" + "" == "#";
    assert "#" + "200" == "#200" && "#" + "300" == "#300" && "#" + "501" == "#501" && "#" + "900" == "#900";
  }
}
