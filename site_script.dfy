/** The site's page script: browser detection from the user agent, the phone-number rule of
    the form validator, the responsive settings built for the carousels and the navbar, the
    form validation summary, the mail-form result codes, the live search request counters
    and the page-transition filter. Element attributes are given as a map from attribute
    name to value; a missing attribute reads as the empty string, which is falsy like the
    `undefined` jQuery returns. */
module SiteScript {
  import opened Js

  // ------------------------------------------------------------ browser detection

  /** The value of `isIE`: `false`, or a number (possibly NaN, when `msie` is followed by
      something parseInt cannot read). */
  datatype IeVersion = NotIE | IE(version: JsInt)

  /** isIE, computed from the lower-cased user agent. */
  function DetectIE(userAgent: string): (r: IeVersion)
    ensures var ua := ToLower(userAgent);
      && (Includes(ua, "msie") ==> r == IE(ParseInt(SecondPiece(ua, "msie"))))
      && (!Includes(ua, "msie") && Includes(ua, "trident") ==> r == IE(Int(11)))
      && (!Includes(ua, "msie") && !Includes(ua, "trident") && Includes(ua, "edge") ==> r == IE(Int(12)))
      && (!Includes(ua, "msie") && !Includes(ua, "trident") && !Includes(ua, "edge") ==> r == NotIE)
  {
    var ua := ToLower(userAgent);
    if IndexOf(ua, "msie") != -1 then IE(ParseInt(SecondPiece(ua, "msie")))
    else if IndexOf(ua, "trident") != -1 then IE(Int(11))
    else if IndexOf(ua, "edge") != -1 then IE(Int(12))
    else NotIE
  }

  /** `isIE !== false && isIE < 12`: the support script is loaded. NaN compares false. */
  predicate LoadsSupportScript(ie: IeVersion) {
    ie.IE? && ie.version.Int? && ie.version.n < 12
  }

  /** The classes added to the html element when `isIE` is truthy. */
  function IeClasses(ie: IeVersion): (r: set<string>)
    ensures !(ie.IE? && TruthyNum(ie.version)) ==> r == {}
    ensures ie.IE? && TruthyNum(ie.version) ==>
      var v := ie.version.n;
      && ("ie-edge" in r <==> v == 12)
      && ("ie-11" in r <==> v == 11)
      && ("lt-ie-10" in r <==> v < 10)
      && ("ie-10" in r <==> v < 11)
      && r <= {"ie-edge", "ie-11", "lt-ie-10", "ie-10"}
  {
    if ie.IE? && TruthyNum(ie.version) then
      var v := ie.version.n;
      (if v == 12 then {"ie-edge"} else {})
      + (if v == 11 then {"ie-11"} else {})
      + (if v < 10 then {"lt-ie-10"} else {})
      + (if v < 11 then {"ie-10"} else {})
    else {}
  }

  /** The versions the script distinguishes: IE 9 is below 10 and below 11, IE 10 only
      below 11, IE 11 and Edge get their own class, and a NaN version gets none. */
  lemma IeClassTable()
    ensures IeClasses(IE(Int(9))) == {"lt-ie-10", "ie-10"}
    ensures IeClasses(IE(Int(10))) == {"ie-10"}
    ensures IeClasses(IE(Int(11))) == {"ie-11"}
    ensures IeClasses(IE(Int(12))) == {"ie-edge"}
    ensures IeClasses(IE(NaN)) == {}
  {
    assert {"lt-ie-10"} + {"ie-10"} == {"lt-ie-10", "ie-10"};
  }

  /** Trident is IE 11 and loads the support script; Edge is 12 and does not; a browser
      naming none of the three gets neither. */
  lemma SupportScriptByEngine(userAgent: string)
    ensures var ua := ToLower(userAgent);
      && (!Includes(ua, "msie") && Includes(ua, "trident") ==> LoadsSupportScript(DetectIE(userAgent)) && IeClasses(DetectIE(userAgent)) == {"ie-11"})
      && (!Includes(ua, "msie") && !Includes(ua, "trident") ==> !LoadsSupportScript(DetectIE(userAgent)))
      && (!Includes(ua, "msie") && !Includes(ua, "trident") && Includes(ua, "edge") ==> IeClasses(DetectIE(userAgent)) == {"ie-edge"})
  {
  }

  /** For a truthy version, the support script is loaded exactly when the page is marked
      `ie-11` or `ie-10`; `lt-ie-10` always comes with `ie-10`, and `ie-edge` with nothing. */
  lemma {:induction false} IeClassesAgreeWithSupport(ie: IeVersion)
    requires ie.IE? && TruthyNum(ie.version)
    ensures LoadsSupportScript(ie) <==> "ie-11" in IeClasses(ie) || "ie-10" in IeClasses(ie)
    ensures "lt-ie-10" in IeClasses(ie) ==> "ie-10" in IeClasses(ie)
    ensures "ie-edge" in IeClasses(ie) ==> IeClasses(ie) == {"ie-edge"}
  {
    var v := ie.version.n;
    assert "ie-edge" != "ie-11" && "ie-edge" != "ie-10" && "ie-edge" != "lt-ie-10";
    assert "ie-11" != "ie-10" && "ie-11" != "lt-ie-10" && "ie-10" != "lt-ie-10";
  }

  // ------------------------------------------------------------ phone numbers

  /** The characters of `[0-9\-\(\) ]`. */
  predicate PhoneChar(c: char) {
    IsDigit(c) || c == '-' || c == '(' || c == ')' || c == ' '
  }

  /** `[0-9\-\(\) ]{5,}` matches all of b. */
  predicate PhoneRun(b: string) {
    |b| >= 5 && forall i :: 0 <= i < |b| ==> PhoneChar(b[i])
  }

  /** `(\+\d)?` matches all of g. */
  predicate PlusDigit(g: string) {
    g == "" || (|g| == 2 && g[0] == '+' && IsDigit(g[1]))
  }

  /** The regular expression `^(\+\d)?[0-9\-\(\) ]{5,}$`: some split of the value matches
      the optional group and then the run. */
  ghost predicate PhonePattern(v: string) {
    exists k :: 0 <= k <= |v| && PlusDigit(v[..k]) && PhoneRun(v[k..])
  }

  /** The PhoneNumber custom validator, deciding the pattern without backtracking: a
      leading `+` can only be the optional group. */
  function PhoneNumberValid(value: string): (ok: bool)
    ensures ok <==> value == "" || PhonePattern(value)
  {
    if value == "" then true
    else if value[0] == '+' then
      var ok := |value| >= 2 && IsDigit(value[1]) && PhoneRun(value[2..]);
      assert ok ==> PlusDigit(value[..2]) && value[2..] == value[2..];
      assert PhonePattern(value) ==> ok by {
        if PhonePattern(value) {
          var k :| 0 <= k <= |value| && PlusDigit(value[..k]) && PhoneRun(value[k..]);
          assert value[k..][0] == value[k] && !PhoneChar(value[0]);
        }
      }
      ok
    else
      assert PhoneRun(value) ==> PlusDigit(value[..0]) && value[0..] == value;
      assert PhonePattern(value) ==> PhoneRun(value) by {
        if PhonePattern(value) {
          var k :| 0 <= k <= |value| && PlusDigit(value[..k]) && PhoneRun(value[k..]);
          assert k != 0 ==> value[..k][0] == value[0];
        }
      }
      PhoneRun(value)
  }

  // ------------------------------------------------------------ responsive settings

  type Attrs = map<string, string>

  /** `element.attr(name)`, with a missing attribute read as "" (falsy, like undefined). */
  function Attr(attrs: Attrs, name: string): string {
    if name in attrs then attrs[name] else ""
  }

  const Aliases: seq<string> := ["-", "-sm-", "-md-", "-lg-", "-xl-", "-xxl-"]

  const Breakpoints: seq<nat> := [0, 576, 768, 992, 1200, 1600]

  /** `aliaces[k]`; index -1 reads `undefined`, which string concatenation spells out. */
  function Alias(k: int): string {
    if 0 <= k < |Aliases| then Aliases[k] else "undefined"
  }

  /** The three carousel settings filled per breakpoint. */
  datatype OwlField = Items | StagePadding | Margin

  function Suffix(f: OwlField): string {
    match f
    case Items => "items"
    case StagePadding => "stage-padding"
    case Margin => "margin"
  }

  /** The value taken from the `undefined` alias. */
  function Default(f: OwlField): int {
    match f
    case Items => 1
    case StagePadding => 0
    case Margin => 30
  }

  /** A found value that ends the search: items needs a truthy number; stage padding and
      margin accept 0 and go on only past NaN. */
  predicate Settled(f: OwlField, v: JsInt) {
    if f == Items then TruthyNum(v) else v.Int?
  }

  /** What the attribute of alias k offers for a field: nothing when it is falsy. */
  function Offer(attrs: Attrs, f: OwlField, k: int): Option<JsInt> {
    var a := Attr(attrs, "data" + Alias(k) + Suffix(f));
    if Truthy(a) then Some(if k < 0 then Int(Default(f)) else ParseInt(a)) else None
  }

  /** One step of the downward search: an unsettled field takes what is offered. */
  function Settle(f: OwlField, cur: Option<JsInt>, offer: Option<JsInt>): Option<JsInt> {
    if (cur.None? || !Settled(f, cur.value)) && offer.Some? then offer else cur
  }

  /** The field after the search for breakpoint j has visited aliases j down to k. */
  function Searched(attrs: Attrs, f: OwlField, j: int, k: int): Option<JsInt>
    requires -1 <= k <= j + 1
    decreases j + 1 - k
  {
    if k == j + 1 then None else Settle(f, Searched(attrs, f, j, k + 1), Offer(attrs, f, k))
  }

  /** The search result is nothing or the offer of an alias it visited. */
  lemma {:induction false} SearchedIsOffer(attrs: Attrs, f: OwlField, j: int, k: int)
    requires -1 <= k <= j + 1
    ensures Searched(attrs, f, j, k).None?
      || exists m :: k <= m <= j && Searched(attrs, f, j, k) == Offer(attrs, f, m)
    decreases j + 1 - k
  {
    if k <= j {
      SearchedIsOffer(attrs, f, j, k + 1);
    }
  }

  /** When some alias at or below j offers a settling value, the one closest to j wins. */
  lemma {:induction false} SearchPicksNearestSettled(attrs: Attrs, f: OwlField, j: int, m: int, k: int)
    requires -1 <= k <= m <= j
    requires Offer(attrs, f, m).Some? && Settled(f, Offer(attrs, f, m).value)
    requires forall n :: m < n <= j ==> !(Offer(attrs, f, n).Some? && Settled(f, Offer(attrs, f, n).value))
    ensures Searched(attrs, f, j, k) == Offer(attrs, f, m)
    decreases m - k
  {
    if k == m {
      SearchedIsOffer(attrs, f, j, m + 1);
    } else {
      SearchPicksNearestSettled(attrs, f, j, m, k + 1);
    }
  }

  /** With no offer at or below j the field stays unset. */
  lemma {:induction false} SearchWithoutOffer(attrs: Attrs, f: OwlField, j: int, k: int)
    requires -1 <= k <= j + 1
    requires forall n :: k <= n <= j ==> Offer(attrs, f, n).None?
    ensures Searched(attrs, f, j, k).None?
    decreases j + 1 - k
  {
    if k <= j {
      SearchWithoutOffer(attrs, f, j, k + 1);
    }
  }

  /** When no alias at or below j offers a settling value, the lowest offer wins: the search
      keeps overwriting. */
  lemma {:induction false} SearchPicksLowestUnsettled(attrs: Attrs, f: OwlField, j: int, m: int, k: int)
    requires -1 <= k <= m <= j
    requires forall n :: k <= n <= j ==> !(Offer(attrs, f, n).Some? && Settled(f, Offer(attrs, f, n).value))
    requires Offer(attrs, f, m).Some? && forall n :: k <= n < m ==> Offer(attrs, f, n).None?
    ensures Searched(attrs, f, j, k) == Offer(attrs, f, m)
    decreases m - k
  {
    if k == m {
      SearchedIsOffer(attrs, f, j, m + 1);
    } else {
      SearchPicksLowestUnsettled(attrs, f, j, m, k + 1);
    }
  }

  datatype OwlBreakpoint = OwlBreakpoint(items: Option<JsInt>, stagePadding: Option<JsInt>, margin: Option<JsInt>)

  /** The carousel's entry for breakpoint j. */
  function OwlEntry(attrs: Attrs, j: int): OwlBreakpoint
    requires j >= -1
  {
    OwlBreakpoint(Searched(attrs, Items, j, -1), Searched(attrs, StagePadding, j, -1), Searched(attrs, Margin, j, -1))
  }

  /** The search step as the carousel script writes it for one field and one alias. */
  method SearchStep(attrs: Attrs, f: OwlField, k: int, cur: Option<JsInt>) returns (next: Option<JsInt>)
    ensures next == Settle(f, cur, Offer(attrs, f, k))
  {
    next := cur;
    var a := Attr(attrs, "data" + Alias(k) + Suffix(f));
    match f {
      case Items =>
        if !(cur.Some? && TruthyNum(cur.value)) && Truthy(a) {
          next := Some(if k < 0 then Int(1) else ParseInt(a));
        }
      case _ =>
        if !(cur.Some? && TruthyNum(cur.value)) && cur != Some(Int(0)) && Truthy(a) {
          next := Some(if k < 0 then Int(Default(f)) else ParseInt(a));
        }
    }
  }

  /** initOwlCarousel's responsive table: for each breakpoint, aliases from its own down to
      `undefined` are searched for items, stage padding and margin. */
  method OwlResponsive(attrs: Attrs) returns (responsive: map<nat, OwlBreakpoint>)
    ensures responsive.Keys == set j | 0 <= j < |Breakpoints| :: Breakpoints[j]
    ensures forall j :: 0 <= j < |Breakpoints| ==> responsive[Breakpoints[j]] == OwlEntry(attrs, j)
  {
    responsive := map[];
    for j := 0 to |Breakpoints|
      invariant responsive.Keys == set i | 0 <= i < j :: Breakpoints[i]
      invariant forall i :: 0 <= i < j ==> responsive[Breakpoints[i]] == OwlEntry(attrs, i)
    {
      var entry := OwlSearch(attrs, j);
      responsive := responsive[Breakpoints[j] := entry];
    }
  }

  /** The inner loop of initOwlCarousel: aliases j down to `undefined`, three fields at a
      time. */
  method OwlSearch(attrs: Attrs, j: nat) returns (entry: OwlBreakpoint)
    ensures entry == OwlEntry(attrs, j)
  {
    var items, stagePadding, margin := None, None, None;
    var k: int := j;
    while k >= -1
      invariant -2 <= k <= j
      invariant items == Searched(attrs, Items, j, k + 1)
      invariant stagePadding == Searched(attrs, StagePadding, j, k + 1)
      invariant margin == Searched(attrs, Margin, j, k + 1)
    {
      items := SearchStep(attrs, Items, k, items);
      stagePadding := SearchStep(attrs, StagePadding, k, stagePadding);
      margin := SearchStep(attrs, Margin, k, margin);
      k := k - 1;
    }
    entry := OwlBreakpoint(items, stagePadding, margin);
  }

  /** The navbar's settings for one breakpoint. */
  datatype NavbarBreakpoint = NavbarBreakpoint(
    layout: Option<string>, deviceLayout: Option<string>, focusOnHover: Option<bool>,
    autoHeight: Option<bool>, stickUp: Option<bool>, stickUpOffset: Option<string>)

  function NavbarText(attrs: Attrs, alias: string, name: string): Option<string> {
    var a := Attr(attrs, "data" + alias + name);
    if Truthy(a) then Some(a) else None
  }

  function NavbarFlag(attrs: Attrs, alias: string, name: string): Option<bool> {
    var a := Attr(attrs, "data" + alias + name);
    if Truthy(a) then Some(a == "true") else None
  }

  /** The entry built from the attributes of one alias; the page builder pins stickUp off. */
  function NavbarEntry(attrs: Attrs, alias: string, builder: bool): (r: NavbarBreakpoint)
    ensures builder ==> r.stickUp == Some(false)
    ensures !builder ==> (r.stickUp.Some? <==> Truthy(Attr(attrs, "data" + alias + "stick-up")))
  {
    NavbarBreakpoint(
      NavbarText(attrs, alias, "layout"), NavbarText(attrs, alias, "device-layout"),
      NavbarFlag(attrs, alias, "hover-on"), NavbarFlag(attrs, alias, "auto-height"),
      if builder then Some(false) else NavbarFlag(attrs, alias, "stick-up"),
      NavbarText(attrs, alias, "stick-up-offset"))
  }

  const NavbarNames: seq<string> := ["layout", "device-layout", "hover-on", "auto-height", "stick-up", "stick-up-offset"]

  /** A navbar entry reads only its own alias's attributes: two elements that agree on those
      get the same entry, whatever their other attributes. */
  lemma NavbarEntryLocal(a1: Attrs, a2: Attrs, alias: string, builder: bool)
    requires forall n :: 0 <= n < |NavbarNames| ==> Attr(a1, "data" + alias + NavbarNames[n]) == Attr(a2, "data" + alias + NavbarNames[n])
    ensures NavbarEntry(a1, alias, builder) == NavbarEntry(a2, alias, builder)
  {
    assert Attr(a1, "data" + alias + NavbarNames[0]) == Attr(a2, "data" + alias + NavbarNames[0]);
    assert Attr(a1, "data" + alias + NavbarNames[1]) == Attr(a2, "data" + alias + NavbarNames[1]);
    assert Attr(a1, "data" + alias + NavbarNames[2]) == Attr(a2, "data" + alias + NavbarNames[2]);
    assert Attr(a1, "data" + alias + NavbarNames[3]) == Attr(a2, "data" + alias + NavbarNames[3]);
    assert Attr(a1, "data" + alias + NavbarNames[4]) == Attr(a2, "data" + alias + NavbarNames[4]);
    assert Attr(a1, "data" + alias + NavbarNames[5]) == Attr(a2, "data" + alias + NavbarNames[5]);
  }

  /** The navbar's responsive table, one entry per breakpoint. */
  method NavbarResponsive(attrs: Attrs, builder: bool) returns (responsive: map<nat, NavbarBreakpoint>)
    ensures responsive.Keys == set j | 0 <= j < |Breakpoints| :: Breakpoints[j]
    ensures forall j :: 0 <= j < |Breakpoints| ==> responsive[Breakpoints[j]] == NavbarEntry(attrs, Aliases[j], builder)
    ensures builder ==> forall b :: b in responsive ==> responsive[b].stickUp == Some(false)
  {
    responsive := map[];
    for i := 0 to |Breakpoints|
      invariant responsive.Keys == set j | 0 <= j < i :: Breakpoints[j]
      invariant forall j :: 0 <= j < i ==> responsive[Breakpoints[j]] == NavbarEntry(attrs, Aliases[j], builder)
    {
      responsive := responsive[Breakpoints[i] := NavbarEntry(attrs, Aliases[i], builder)];
    }
  }

  // ------------------------------------------------------------ form validation

  /** A reCaptcha widget: how many elements the jQuery object holds and the response token. */
  datatype Captcha = Captcha(size: nat, token: string)

  /** validateReCaptcha: an empty token fails (and shows the robot message). */
  predicate ValidateReCaptcha(c: Captcha) {
    |c.token| != 0
  }

  function Total(s: seq<nat>): (t: nat)
    ensures t == 0 <==> forall i :: 0 <= i < |s| ==> s[i] == 0
  {
    if s == [] then 0 else Total(s[..|s| - 1]) + s[|s| - 1]
  }

  /** isValidated: each element's validator yields a list of messages (given here by its
      length); every message counts as an error and marks the field. An empty element list
      is valid; otherwise no message may be reported and a captcha present must hold a
      token. */
  method IsValidated(messages: seq<nat>, captcha: Option<Captcha>) returns (ok: bool, hasError: seq<bool>)
    ensures |hasError| == |messages| && forall j :: 0 <= j < |messages| ==> hasError[j] == (messages[j] > 0)
    ensures ok <==> (
      || |messages| == 0
      || ((forall j :: 0 <= j < |messages| ==> messages[j] == 0)
          && (captcha.Some? && captcha.value.size > 0 ==> ValidateReCaptcha(captcha.value))))
  {
    var errors := 0;
    hasError := [];
    if |messages| > 0 {
      for j := 0 to |messages|
        invariant errors == Total(messages[..j])
        invariant |hasError| == j && forall i :: 0 <= i < j ==> hasError[i] == (messages[i] > 0)
      {
        assert messages[..j + 1][..j] == messages[..j];
        errors := errors + messages[j];
        hasError := hasError + [messages[j] > 0];
      }
      assert messages[..|messages|] == messages;
      if captcha.Some? && captcha.value.size > 0 {
        return ValidateReCaptcha(captcha.value) && errors == 0, hasError;
      }
      return errors == 0, hasError;
    }
    return true, hasError;
  }

  // ------------------------------------------------------------ mail form results

  /** The messages shown for the mail-form result codes. */
  const MailFormMessages: map<string, string> := map[
    "MF000" := "Successfully sent!",
    "MF001" := "Recipients are not set!",
    "MF002" := "Form will not work locally!",
    "MF003" := "Please, define email field in your form!",
    "MF004" := "Please, define type of your form!",
    "MF254" := "Something went wrong with PHPMailer!",
    "MF255" := "Aw, snap! Something went wrong."]

  /** A server result that is not five characters long becomes MF255. */
  function NormalizeResult(result: string): (r: string)
    ensures |r| == 5
    ensures |result| == 5 ==> r == result
  {
    if |result| == 5 then result else "MF255"
  }

  /** `msg[result]`: None stands for `undefined`. */
  function ResultMessage(result: string): Option<string> {
    if result in MailFormMessages then Some(MailFormMessages[result]) else None
  }

  /** Normalising twice changes nothing, and any result of the wrong length gets the generic
      failure message; a five-character code outside the table shows nothing. */
  lemma NormalizedMessages(result: string)
    ensures NormalizeResult(NormalizeResult(result)) == NormalizeResult(result)
    ensures |result| != 5 ==> ResultMessage(NormalizeResult(result)) == Some("Aw, snap! Something went wrong.")
    ensures |result| == 5 && result !in MailFormMessages ==> ResultMessage(NormalizeResult(result)).None?
  {
  }

  // ------------------------------------------------------------ search

  const DefaultFilter := "*.html"

  /** The options a search form is set up with. */
  datatype SearchOptions = SearchOptions(filter: string, live: Option<string>, liveCount: JsInt)

  /** The options as the script builds them: the live-count option is present when
      `data-search-live-count` is set, but its value is parsed from `data-search-live`. */
  function SearchOptionsAsWritten(attrs: Attrs): (r: SearchOptions)
    ensures Truthy(Attr(attrs, "data-search-live-count")) ==> r.liveCount == ParseInt(Attr(attrs, "data-search-live"))
    ensures !Truthy(Attr(attrs, "data-search-live-count")) ==> r.liveCount == Int(4)
  {
    var filter := Attr(attrs, "data-search-filter");
    var live := Attr(attrs, "data-search-live");
    var count := Attr(attrs, "data-search-live-count");
    SearchOptions(
      if Truthy(filter) then filter else DefaultFilter,
      if Truthy(live) then Some(live) else None,
      if Truthy(count) then ParseInt(live) else Int(4))
  }

  /** The options with the live count read from its own attribute. */
  function SearchOptionsCorrected(attrs: Attrs): (r: SearchOptions)
    ensures Truthy(Attr(attrs, "data-search-live-count")) ==> r.liveCount == ParseInt(Attr(attrs, "data-search-live-count"))
    ensures !Truthy(Attr(attrs, "data-search-live-count")) ==> r.liveCount == Int(4)
    ensures r.filter == SearchOptionsAsWritten(attrs).filter && r.live == SearchOptionsAsWritten(attrs).live
  {
    var count := Attr(attrs, "data-search-live-count");
    SearchOptionsAsWritten(attrs).(liveCount := if Truthy(count) then ParseInt(count) else Int(4))
  }

  /** A live search container named by its id and a count of 6: as written the count is
      parsed from the id and is NaN; corrected it is 6. */
  lemma LiveCountReadsWrongAttribute()
    ensures var attrs := map["data-search-live" := "rd-search-results-live", "data-search-live-count" := "6"];
      SearchOptionsAsWritten(attrs).liveCount == NaN && SearchOptionsCorrected(attrs).liveCount == Int(6)
  {
    var attrs := map["data-search-live" := "rd-search-results-live", "data-search-live-count" := "6"];
    var id := "rd-search-results-live";
    assert Attr(attrs, "data-search-live") == id;
    assert Attr(attrs, "data-search-live-count") == "6";
    assert forall i :: 0 <= i < |id| ==> !IsDigit(id[i]);
    ParseIntNoDigit(id);
    assert DecimalString(6) == "6";
    ParseIntOfDecimal(6);
  }

  /** The live search of one search form: `current` counts requests issued, `processed`
      responses received; `shown` is the html of the results container. */
  class LiveSearch {
    var current: nat
    var processed: nat
    var cleared: bool
    var shown: string
    /** The request whose response is on display, 0 for none. */
    var shownFor: nat

    ghost predicate Valid()
      reads this
    {
      processed <= current && shownFor <= current
    }

    constructor()
      ensures Valid()
      ensures current == 0 && processed == 0 && !cleared && shown == "" && shownFor == 0
    {
      current, processed, cleared, shown, shownFor := 0, 0, false, "", 0;
    }

    /** liveSearch: the container is un-cleared and a request is issued; its number is
        returned for the response that will answer it. */
    method Issue() returns (request: nat)
      requires Valid()
      modifies this
      ensures Valid()
      ensures current == old(current) + 1 && request == current
      ensures !cleared && processed == old(processed) && shown == old(shown) && shownFor == old(shownFor)
    {
      cleared := false;
      current := current + 1;
      request := current;
    }

    /** The input handler: a trimmed term longer than two characters issues a request, an
        empty term clears the container, and one or two characters do nothing. */
    method OnInput(value: string) returns (issued: bool)
      requires Valid()
      modifies this
      ensures Valid()
      ensures issued <==> |Trim(value)| > 2
      ensures issued ==> current == old(current) + 1 && !cleared && shown == old(shown)
      ensures |Trim(value)| == 0 ==> current == old(current) && cleared && shown == "" && shownFor == 0
      ensures 0 < |Trim(value)| <= 2 ==> current == old(current) && cleared == old(cleared) && shown == old(shown)
      ensures processed == old(processed)
    {
      var term := Trim(value);
      issued := false;
      if |term| > 2 {
        var _ := Issue();
        issued := true;
      } else if |term| == 0 {
        cleared := true;
        shown := "";
        shownFor := 0;
      }
    }

    /** The response to `request` arrives, as written: it is shown when the number of
        responses received equals the number of requests issued, whichever request it
        answers. */
    method Receive(request: nat, data: string)
      requires Valid() && 1 <= request <= current && processed < current
      modifies this
      ensures Valid()
      ensures processed == old(processed) + 1 && current == old(current) && cleared == old(cleared)
      ensures if processed == current && !cleared then shown == data && shownFor == request
              else shown == old(shown) && shownFor == old(shownFor)
    {
      processed := processed + 1;
      if processed == current && !cleared {
        shown := data;
        shownFor := request;
      }
    }

    /** The response to `request` arrives, corrected: it is shown only when it answers the
        latest request, so an older response never replaces a newer one. */
    method ReceiveLatest(request: nat, data: string)
      requires Valid() && 1 <= request <= current && processed < current
      modifies this
      ensures Valid()
      ensures processed == old(processed) + 1 && current == old(current) && cleared == old(cleared)
      ensures if request == current && !cleared then shown == data && shownFor == current
              else shown == old(shown) && shownFor == old(shownFor)
      ensures old(shownFor) <= shownFor
    {
      processed := processed + 1;
      if request == current && !cleared {
        shown := data;
        shownFor := request;
      }
    }
  }

  /** As written: after a first search is answered, two more are issued; the third answer
      arrives before the second, and the second, now stale, is what stays on display. */
  method StaleResponseShown() returns (shown: string, shownFor: nat, latest: nat)
    ensures shown == "second" && shownFor == 2 && latest == 3
  {
    var s := new LiveSearch();
    var r1 := s.Issue();
    s.Receive(r1, "first");
    var r2 := s.Issue();
    var r3 := s.Issue();
    s.Receive(r3, "third");
    s.Receive(r2, "second");
    shown, shownFor, latest := s.shown, s.shownFor, s.current;
  }

  /** Corrected: the same arrivals leave the third answer on display. */
  method LatestResponseShown() returns (shown: string, shownFor: nat, latest: nat)
    ensures shown == "third" && shownFor == 3 && latest == 3
  {
    var s := new LiveSearch();
    var r1 := s.Issue();
    s.ReceiveLatest(r1, "first");
    var r2 := s.Issue();
    var r3 := s.Issue();
    s.ReceiveLatest(r3, "third");
    s.ReceiveLatest(r2, "second");
    shown, shownFor, latest := s.shown, s.shownFor, s.current;
  }

  // ------------------------------------------------------------ page transitions

  /** The pageTransition condition: no transition for a link containing `#`, `callto:`,
      `tel:`, `mailto:` or `://`, nor for a light-gallery item. */
  predicate TransitionAllowed(link: string, lightGallery: bool) {
    !(Includes(link, "#") || Includes(link, "callto:") || Includes(link, "tel:")
      || Includes(link, "mailto:") || Includes(link, "://"))
    && !lightGallery
  }

  /** One of the markers, wherever it occurs in the link, stops the transition. */
  lemma MarkerSkipped(before: string, marker: string, after: string, lightGallery: bool)
    requires marker in ["#", "callto:", "tel:", "mailto:", "://"]
    ensures !TransitionAllowed(before + marker + after, lightGallery)
  {
    StartsWithIncludes(marker + after, marker);
    IncludesAppendLeft(before, marker + after, marker);
    assert before + marker + after == before + (marker + after);
  }

  /** A link to a fragment, a phone number, an absolute url or a mail address never
      animates, whatever surrounds the marker, and neither does a light-gallery item; a link
      with neither `#` nor `:` that is not a light-gallery item always does. */
  lemma {:induction false} TransitionSkipped(before: string, after: string, link: string, lightGallery: bool)
    ensures !TransitionAllowed(before + "#" + after, lightGallery)
    ensures !TransitionAllowed(before + "callto:" + after, lightGallery)
    ensures !TransitionAllowed(before + "tel:" + after, lightGallery)
    ensures !TransitionAllowed(before + "mailto:" + after, lightGallery)
    ensures !TransitionAllowed(before + "://" + after, lightGallery)
    ensures !TransitionAllowed(link, true)
    ensures '#' !in link && ':' !in link ==> TransitionAllowed(link, false)
  {
    MarkerSkipped(before, "#", after, lightGallery);
    MarkerSkipped(before, "callto:", after, lightGallery);
    MarkerSkipped(before, "tel:", after, lightGallery);
    MarkerSkipped(before, "mailto:", after, lightGallery);
    MarkerSkipped(before, "://", after, lightGallery);
    if '#' !in link && ':' !in link {
      NotIncludesSomeChar(link, "#", 0);
      NotIncludesSomeChar(link, "callto:", 6);
      NotIncludesSomeChar(link, "tel:", 3);
      NotIncludesSomeChar(link, "mailto:", 6);
      NotIncludesSomeChar(link, "://", 0);
    }
  }
}
