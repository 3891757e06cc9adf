/** The in-page link checker: classifies every `a[href]` of a page as external, anchor or
    internal, checks internal links once each (a memo of validated and broken hrefs),
    tries an ordered list of repairs on a broken link, and marks each link with CSS
    classes and attributes.

    A link element is the class `Anchor`; the network answers of the HEAD and GET probes
    are an oracle parameter; the page's element ids are a sequence in document order. */
module LinkValidator {
  import opened Js

  // ---------------------------------------------------------------- classification

  /** isExternalLink: http(s), mailto and tel links. */
  predicate IsExternalLink(href: string) {
    Truthy(href) && (StartsWith(href, "http://") || StartsWith(href, "https://")
                     || StartsWith(href, "mailto:") || StartsWith(href, "tel:"))
  }

  /** isAnchorLink: links to a fragment of the same page. */
  predicate IsAnchorLink(href: string) { Truthy(href) && StartsWith(href, "#") }

  datatype LinkKind = External | AnchorLink | Internal

  /** The branch validateAllLinks takes for an href. */
  function Kind(href: string): LinkKind {
    if IsExternalLink(href) then External
    else if IsAnchorLink(href) then AnchorLink
    else Internal
  }

  /** The truthiness test in isExternalLink / isAnchorLink is implied by the prefixes; the two
      kinds never overlap. */
  lemma KindsExclusive(href: string)
    ensures IsExternalLink(href) <==> (StartsWith(href, "http://") || StartsWith(href, "https://")
                                       || StartsWith(href, "mailto:") || StartsWith(href, "tel:"))
    ensures IsAnchorLink(href) <==> StartsWith(href, "#")
    ensures !(IsExternalLink(href) && IsAnchorLink(href))
  {
    if IsAnchorLink(href) {
      assert href[0] == href[..1][0] == '#';
      assert |href| >= 4 ==> href[..4][0] == '#';
      assert |href| >= 7 ==> href[..7][0] == '#';
      assert |href| >= 8 ==> href[..8][0] == '#';
    }
  }

  /** The number of hrefs of a given kind. */
  function CountKind(hs: seq<string>, k: LinkKind): (n: nat)
    ensures n <= |hs|
  {
    if hs == [] then 0
    else CountKind(hs[..|hs| - 1], k) + (if Kind(hs[|hs| - 1]) == k then 1 else 0)
  }

  /** Counting one more href of a prefix. */
  lemma CountKindNext(hs: seq<string>, i: nat)
    requires i < |hs|
    ensures forall k :: CountKind(hs[..i + 1], k) == CountKind(hs[..i], k) + (if Kind(hs[i]) == k then 1 else 0)
  {
    assert hs[..i + 1][..i] == hs[..i];
  }

  /** Every href is of exactly one kind. */
  lemma {:induction false} CountKindsSum(hs: seq<string>)
    ensures CountKind(hs, External) + CountKind(hs, AnchorLink) + CountKind(hs, Internal) == |hs|
  {
    if hs != [] {
      CountKindsSum(hs[..|hs| - 1]);
    }
  }

  /** testLinkSync: a relative href is presumed to exist if it names an HTML file or the root. */
  predicate TestLinkSync(href: string) {
    !StartsWith(href, "http") && !StartsWith(href, "//")
    && (Includes(href, ".html") || href == "/" || href == "./")
  }

  /** isInternalHTMLLink */
  predicate IsInternalHtmlLink(href: string) {
    Truthy(href) && !IsExternalLink(href) && !IsAnchorLink(href)
    && (Includes(href, ".html") || href == "/" || href == "./")
  }

  /** The two HTML-link heuristics agree on every href that is neither absolute, nor
      protocol-relative, nor a mailto/tel link, nor a fragment. */
  lemma TestLinkSyncIsInternalHtml(href: string)
    requires !StartsWith(href, "http") && !StartsWith(href, "//")
    requires !StartsWith(href, "mailto:") && !StartsWith(href, "tel:") && !StartsWith(href, "#")
    ensures TestLinkSync(href) <==> IsInternalHtmlLink(href)
  {
  }

  /** The fix test accepts `.html` hrefs and the root, but not absolute, protocol-relative or
      other relative hrefs; outside the requirement of TestLinkSyncIsInternalHtml the two
      tests part: a fragment naming `.html` passes the fix test and fails the hover test. */
  lemma HtmlLinkHeuristicsDiffer(rest: string)
    ensures TestLinkSync("about.html") && TestLinkSync("/") && TestLinkSync("./")
    ensures !TestLinkSync("about.php")
    ensures !TestLinkSync("https://" + rest) && !TestLinkSync("//" + rest)
    ensures TestLinkSync("#intro.html") && !IsInternalHtmlLink("#intro.html")
  {
    assert OccursAt("about.html", ".html", 5);
    NotIncludesSomeChar("about.php", ".html", 4);
    assert ("https://" + rest)[..4] == "http";
    assert ("//" + rest)[..2] == "//";
    assert OccursAt("#intro.html", ".html", 6);
    NotStartsWithFirstChar("#intro.html", "http");
    NotStartsWithFirstChar("#intro.html", "//");
    assert StartsWith("#intro.html", "#");
  }

  // ---------------------------------------------------------------- probing a link

  /** The answer to one fetch with mode 'no-cors': a response (with its `ok` flag and
      whether it is opaque), or a network error. */
  datatype Probe = Answered(ok: bool, isOpaque: bool) | NetError

  /** What awaiting a link check gives: its boolean result, or a thrown error. */
  datatype CheckResult = Settled(exists_: bool) | Threw

  /** checkLinkExists: HEAD first, GET only when HEAD throws; every error is caught. */
  function CheckLinkExists(head: Probe, get: Probe): (r: CheckResult)
    ensures r.Settled?
    ensures head.Answered? ==> r.exists_ == (head.ok || head.isOpaque)
    ensures head.NetError? && get.NetError? ==> !r.exists_
  {
    match head
    case Answered(ok, isOpaque) => Settled(ok || isOpaque)
    case NetError =>
      match get
      case Answered(ok, isOpaque) => Settled(ok || isOpaque)
      case NetError => Settled(false)
  }

  /** The GET probe matters only when the HEAD probe fails. */
  lemma GetOnlyAfterHeadFails(head: Probe, g1: Probe, g2: Probe)
    requires head.Answered?
    ensures CheckLinkExists(head, g1) == CheckLinkExists(head, g2)
  {
  }

  // ---------------------------------------------------------------- anchors

  /** One lower-cased id contains the other. */
  predicate Related(id: string, targetId: string) {
    Includes(ToLower(id), ToLower(targetId)) || Includes(ToLower(targetId), ToLower(id))
  }

  /** findSimilarAnchor: a case-insensitive exact match that differs from the target, else the
      first id where one lower-cased string contains the other; None is `undefined`. */
  function FindSimilarAnchor(targetId: string, allIds: seq<string>): (r: Option<string>)
    ensures r.Some? ==> r.value in allIds
    ensures r.Some? && r.value != targetId && ToLower(r.value) == ToLower(targetId) && r.value != "" ==>
      forall j :: 0 <= j < |allIds| && ToLower(allIds[j]) == ToLower(targetId)
        ==> allIds[j] == r.value || exists k :: 0 <= k < j && allIds[k] == r.value
  {
    var low := ToLower(targetId);
    var exact := Find(allIds, id => ToLower(id) == low);
    if exact.Some? && Truthy(exact.value) && exact.value != targetId then exact
    else Find(allIds, id => Related(id, targetId))
  }

  /** A case variant of a missing id is always suggested, and it is the first such variant. */
  lemma SimilarPrefersCaseVariant(targetId: string, allIds: seq<string>, i: nat)
    requires i < |allIds| && ToLower(allIds[i]) == ToLower(targetId) && targetId != ""
    requires forall j :: 0 <= j < |allIds| ==> allIds[j] != targetId
    requires forall j :: 0 <= j < i ==> ToLower(allIds[j]) != ToLower(targetId)
    ensures FindSimilarAnchor(targetId, allIds) == Some(allIds[i])
  {
    var low := ToLower(targetId);
    var p := (id: string) => ToLower(id) == low;
    var e := FindIndex(allIds, p);
    assert p(allIds[i]);
    assert e == i;
    assert |allIds[i]| == |targetId|;
  }

  /** When no id but the target itself is a case variant of it, the first id related to the
      target by containment is suggested, and nothing is suggested when none is. */
  lemma SimilarFallsBackToContainment(targetId: string, allIds: seq<string>, i: nat)
    requires forall j :: 0 <= j < |allIds| && ToLower(allIds[j]) == ToLower(targetId) ==> allIds[j] == targetId
    ensures FindSimilarAnchor(targetId, allIds).None? <==> forall j :: 0 <= j < |allIds| ==> !Related(allIds[j], targetId)
    ensures i < |allIds| && Related(allIds[i], targetId) && (forall j :: 0 <= j < i ==> !Related(allIds[j], targetId))
      ==> FindSimilarAnchor(targetId, allIds) == Some(allIds[i])
  {
    var low := ToLower(targetId);
    var p := (id: string) => Related(id, targetId);
    var e := FindIndex(allIds, p);
    assert FindSimilarAnchor(targetId, allIds) == Find(allIds, p) by {
      var exact := Find(allIds, id => ToLower(id) == low);
      assert exact.Some? ==> exact.value == targetId;
    }
    if i < |allIds| && Related(allIds[i], targetId) && (forall j :: 0 <= j < i ==> !Related(allIds[j], targetId)) {
      assert p(allIds[i]);
      assert e == i;
    }
  }

  /** An empty target is contained in every id, so the first non-empty id is suggested. */
  lemma EmptyTargetTakesFirst(allIds: seq<string>)
    requires |allIds| > 0 && allIds[0] != ""
    ensures FindSimilarAnchor("", allIds) == Some(allIds[0])
  {
    assert OccursAt(ToLower(allIds[0]), ToLower(""), 0);
    assert Related(allIds[0], "");
  }

  // ---------------------------------------------------------------- repair strategies

  const CommonPages: seq<string> := ["index.html", "about.html", "contact.html", "contacts.html"]

  const Corrections: map<string, string> := map[
    "contac.html" := "contacts.html",
    "contact.html" := "contacts.html",
    "aboutus.html" := "about.html",
    "home.html" := "index.html"]

  /** `s.replace(/\/+/g, '/')`: every run of slashes becomes one slash. */
  function CollapseSlashes(s: string): (r: string)
    ensures |r| <= |s|
    ensures |s| > 0 ==> |r| > 0 && r[0] == s[0]
    ensures forall i :: 0 <= i < |r| - 1 ==> !(r[i] == '/' && r[i + 1] == '/')
  {
    if |s| == 0 then s
    else if |s| >= 2 && s[0] == '/' && s[1] == '/' then CollapseSlashes(s[1..])
    else [s[0]] + CollapseSlashes(s[1..])
  }

  /** Collapsing is idempotent: a string without a doubled slash is left as it is. */
  lemma {:induction false} CollapseSlashesIdempotent(s: string)
    requires forall i :: 0 <= i < |s| - 1 ==> !(s[i] == '/' && s[i + 1] == '/')
    ensures CollapseSlashes(s) == s
  {
    if |s| > 0 {
      CollapseSlashesIdempotent(s[1..]);
      assert [s[0]] + s[1..] == s;
    }
  }

  /** The four strategies of attemptLinkFix, in order; None is `null` or `undefined`. */
  function Candidates(href: string): (c: seq<Option<string>>)
    ensures |c| == 4
  {
    var low := ToLower(href);
    var page := Find(CommonPages, p => p == low);
    [ if !Includes(href, ".") && !Includes(href, "#") && !Includes(href, "?")
      then Some(href + ".html") else None,
      if Includes(href, "//") && !StartsWith(href, "http")
      then Some(CollapseSlashes(href)) else None,
      if page.Some? && page.value != href then page else None,
      if href in Corrections then Some(Corrections[href]) else None ]
  }

  /** The test a candidate must pass to be applied. */
  predicate Accepts(c: Option<string>, href: string, validated: set<string>) {
    c.Some? && Truthy(c.value) && c.value != href && (c.value in validated || TestLinkSync(c.value))
  }

  /** The repair attemptLinkFix applies: the first accepted candidate, if any. */
  function ChooseFix(href: string, validated: set<string>): (r: Option<string>)
    ensures r.None? <==> forall i :: 0 <= i < 4 ==> !Accepts(Candidates(href)[i], href, validated)
    ensures r.Some? ==>
      exists i :: 0 <= i < 4 && Candidates(href)[i] == r && Accepts(r, href, validated)
        && forall j :: 0 <= j < i ==> !Accepts(Candidates(href)[j], href, validated)
  {
    var cs := Candidates(href);
    var i := FindIndex(cs, c => Accepts(c, href, validated));
    if i < 0 then None else cs[i]
  }

  /** The first accepted candidate is the repair. */
  lemma ChooseFixFirst(href: string, validated: set<string>, i: nat)
    requires i < 4 && Accepts(Candidates(href)[i], href, validated)
    requires forall j :: 0 <= j < i ==> !Accepts(Candidates(href)[j], href, validated)
    ensures ChooseFix(href, validated) == Candidates(href)[i]
  {
  }

  /** A repair always differs from the broken href and is either already validated or a
      plausible relative HTML link. */
  lemma ChooseFixSound(href: string, validated: set<string>)
    ensures var f := ChooseFix(href, validated);
      f.Some? ==> f.value != href && (f.value in validated || TestLinkSync(f.value))
  {
  }

  lemma AppendHtmlNoHttp(href: string)
    requires !StartsWith(href, "http") && !StartsWith(href, "//")
    ensures !StartsWith(href + ".html", "http") && !StartsWith(href + ".html", "//")
  {
    var t := href + ".html";
    assert t[|href|] == '.';
    if |href| >= 4 { assert t[..4] == href[..4]; }
    if |href| >= 2 { assert t[..2] == href[..2]; }
  }

  /** An extension-less relative href (no '.', '#' or '?') is always repaired to
      `href + '.html'`, by the first strategy. */
  lemma ExtensionlessGetsHtml(href: string, validated: set<string>)
    requires !Includes(href, ".") && !Includes(href, "#") && !Includes(href, "?")
    requires !StartsWith(href, "http") && !StartsWith(href, "//")
    ensures ChooseFix(href, validated) == Some(href + ".html")
  {
    var t := href + ".html";
    AppendHtmlNoHttp(href);
    assert OccursAt(t, ".html", |href|);
    assert TestLinkSync(t);
    assert |t| != |href|;
    assert Accepts(Candidates(href)[0], href, validated);
  }

  // ---------------------------------------------------------------- link elements

  /** An `<a>` element: its href attribute, its class list and its other attributes. */
  class Anchor {
    var href: string
    var classes: set<string>
    var attrs: map<string, string>
    var hasExternalIcon: bool

    constructor(href: string)
      ensures this.href == href && classes == {} && attrs == map[] && !hasExternalIcon
    {
      this.href := href;
      classes := {};
      attrs := map[];
      hasExternalIcon := false;
    }
  }

  datatype Results = Results(total: nat, valid: nat, broken: nat, external: nat, fixed: nat)

  /** The counters one link moves: external; none (an anchor); valid, possibly after a
      repair; broken. */
  datatype Step = CountExternal | CountNothing | CountValid(fixed: bool) | CountBroken

  /** The counters after a run of steps: valid counts every CountValid, fixed the repaired
      ones among them, broken every CountBroken, external every CountExternal. */
  function Tally(steps: seq<Step>): (r: Results)
    ensures r.total == |steps| && r.fixed <= r.valid
    ensures r.valid + r.broken + r.external <= r.total
  {
    if steps == [] then Results(0, 0, 0, 0, 0)
    else
      var t, s := Tally(steps[..|steps| - 1]), steps[|steps| - 1];
      Results(t.total + 1,
              t.valid + (if s.CountValid? then 1 else 0),
              t.broken + (if s == CountBroken then 1 else 0),
              t.external + (if s == CountExternal then 1 else 0),
              t.fixed + (if s == CountValid(true) then 1 else 0))
  }

  /** The counter updates of one iteration of validateAllLinks's loop. */
  function Bump(r: Results, s: Step): Results {
    match s
    case CountExternal => r.(total := r.total + 1, external := r.external + 1)
    case CountNothing => r.(total := r.total + 1)
    // a repaired link is first counted broken, then moved to valid
    case CountValid(fixed) => r.(total := r.total + 1, valid := r.valid + 1, fixed := if fixed then r.fixed + 1 else r.fixed)
    case CountBroken => r.(total := r.total + 1, broken := r.broken + 1)
  }

  /** One more step moves exactly the counter it names, and the total. */
  lemma TallySnoc(steps: seq<Step>, s: Step)
    ensures Tally(steps + [s]) == Bump(Tally(steps), s)
  {
    assert (steps + [s])[..|steps|] == steps;
  }

  lemma StepsSnoc(steps: seq<Step>, s: Step, hs: seq<string>, i: nat)
    requires |steps| == i < |hs| && StepOfKind(s, Kind(hs[i]))
    requires forall j :: 0 <= j < i ==> StepOfKind(steps[j], Kind(hs[j]))
    ensures forall j :: 0 <= j < i + 1 ==> StepOfKind((steps + [s])[j], Kind(hs[j]))
  {
  }

  /** The step a link of a given kind can take. */
  predicate StepOfKind(step: Step, kind: LinkKind) {
    match kind
    case External => step == CountExternal
    case AnchorLink => step == CountNothing
    case Internal => step.CountValid? || step == CountBroken
  }

  /** When every step fits its href's kind, the tally counts the kinds: every external link
      as external, every internal one as valid or broken. */
  lemma {:induction false} TallyCountsKinds(steps: seq<Step>, hs: seq<string>)
    requires |steps| == |hs| && forall i :: 0 <= i < |hs| ==> StepOfKind(steps[i], Kind(hs[i]))
    ensures Tally(steps).external == CountKind(hs, External)
    ensures Tally(steps).valid + Tally(steps).broken == CountKind(hs, Internal)
  {
    if steps != [] {
      TallyCountsKinds(steps[..|steps| - 1], hs[..|hs| - 1]);
    }
  }

  function Hrefs(links: seq<Anchor>): (hs: seq<string>)
    reads set l | l in links
    ensures |hs| == |links| && forall i :: 0 <= i < |links| ==> hs[i] == links[i].href
  {
    seq(|links|, i requires 0 <= i < |links| reads links => links[i].href)
  }

  class Validator {
    var validatedLinks: set<string>
    var brokenLinks: set<string>
    /** In-flight checks and what they will settle to. */
    var pendingChecks: map<string, CheckResult>

    /** An href is remembered as valid or as broken, never both. */
    ghost predicate Valid()
      reads this
    {
      validatedLinks !! brokenLinks
    }

    constructor()
      ensures Valid()
      ensures validatedLinks == {} && brokenLinks == {} && pendingChecks == map[]
    {
      validatedLinks := {};
      brokenLinks := {};
      pendingChecks := map[];
    }

    method MarkAsValid(link: Anchor)
      modifies link
      ensures link.classes == old(link.classes) + {"link-valid"} - {"link-broken", "link-fixed"}
      ensures "link-valid" in link.classes && "link-broken" !in link.classes
        && "link-fixed" !in link.classes
      ensures link.href == old(link.href) && link.attrs == old(link.attrs)
      ensures link.hasExternalIcon == old(link.hasExternalIcon)
    {
      link.classes := link.classes + {"link-valid"} - {"link-broken", "link-fixed"};
    }

    method MarkAsBroken(link: Anchor, reason: string)
      modifies link
      ensures link.classes == old(link.classes) + {"link-broken"} - {"link-valid", "link-fixed"}
      ensures "link-broken" in link.classes && "link-valid" !in link.classes
        && "link-fixed" !in link.classes
      ensures link.attrs == old(link.attrs)["title" := reason]["data-link-error" := reason]
      ensures link.href == old(link.href) && link.hasExternalIcon == old(link.hasExternalIcon)
    {
      link.classes := link.classes + {"link-broken"} - {"link-valid", "link-fixed"};
      link.attrs := link.attrs["title" := reason]["data-link-error" := reason];
    }

    method MarkAsFixed(link: Anchor)
      modifies link
      ensures link.classes == old(link.classes) + {"link-fixed"} - {"link-broken"}
      ensures link.href == old(link.href) && link.attrs == old(link.attrs)
      ensures link.hasExternalIcon == old(link.hasExternalIcon)
    {
      link.classes := link.classes + {"link-fixed"} - {"link-broken"};
    }

    /** markAsExternal: the icon is appended only once. */
    method MarkAsExternal(link: Anchor)
      modifies link
      ensures link.classes == old(link.classes) + {"link-external"}
      ensures link.attrs == old(link.attrs)["target" := "_blank"]["rel" := "noopener noreferrer"]
      ensures link.href == old(link.href) && link.hasExternalIcon
    {
      link.classes := link.classes + {"link-external"};
      link.attrs := link.attrs["target" := "_blank"]["rel" := "noopener noreferrer"];
      if !link.hasExternalIcon {
        link.hasExternalIcon := true;
      }
    }

    /** suggestFix, without the ctrl-click listener that would apply the suggestion. */
    method SuggestFix(link: Anchor, suggested: string, message: string)
      modifies link
      ensures link.classes == old(link.classes) + {"link-suggested-fix"}
      ensures link.attrs == old(link.attrs)["data-suggested-fix" := suggested]["data-fix-message" := message]
      ensures link.href == old(link.href) && link.hasExternalIcon == old(link.hasExternalIcon)
    {
      link.attrs := link.attrs["data-suggested-fix" := suggested]["data-fix-message" := message];
      link.classes := link.classes + {"link-suggested-fix"};
    }

    /** What validateInternalLink answers for href in the current state, the check being
        run only when the memo and the pending map know nothing of href. */
    function CheckedOk(href: string, check: CheckResult): bool
      reads this`validatedLinks, this`brokenLinks, this`pendingChecks
    {
      if href in validatedLinks then true
      else if href in brokenLinks then false
      else if href in pendingChecks then pendingChecks[href] == Settled(true)
      else check == Settled(true)
    }

    /** validateInternalLink: answer from the memo, else run the check and remember its
        outcome. */
    method ValidateInternalLink(href: string, check: CheckResult) returns (ok: bool)
      requires Valid()
      modifies this
      ensures Valid()
      ensures ok == old(CheckedOk(href, check))
      ensures !ok ==> validatedLinks == old(validatedLinks)
      ensures href in old(validatedLinks) ==> ok && unchanged(this)
      ensures href !in old(validatedLinks) && href in old(brokenLinks) ==> !ok && unchanged(this)
      ensures href !in old(validatedLinks) && href !in old(brokenLinks) && href in old(pendingChecks) ==>
        unchanged(this) && ok == (old(pendingChecks)[href] == Settled(true))
      ensures href !in old(validatedLinks) && href !in old(brokenLinks) && href !in old(pendingChecks) ==>
        pendingChecks == old(pendingChecks)
        && (check.Threw? ==> !ok && validatedLinks == old(validatedLinks) && brokenLinks == old(brokenLinks))
        && (check == Settled(true) ==> ok && validatedLinks == old(validatedLinks) + {href}
                                          && brokenLinks == old(brokenLinks))
        && (check == Settled(false) ==> !ok && brokenLinks == old(brokenLinks) + {href}
                                           && validatedLinks == old(validatedLinks))
    {
      if href in validatedLinks {
        return true;
      }
      if href in brokenLinks {
        return false;
      }
      if href in pendingChecks {
        return pendingChecks[href] == Settled(true);
      }
      pendingChecks := pendingChecks[href := check];
      match check {
        case Settled(exists_) =>
          pendingChecks := pendingChecks - {href};
          if exists_ {
            validatedLinks := validatedLinks + {href};
            ok := true;
          } else {
            brokenLinks := brokenLinks + {href};
            ok := false;
          }
        case Threw =>
          pendingChecks := pendingChecks - {href};
          ok := false;
      }
    }

    /** Marking a link broken leaves its suggestion alone, and a later suggestion leaves the
        error in place. */
    lemma BrokenThenSuggestion(before: map<string, string>, reason: string, suggested: string, message: string,
                               classes: set<string>)
      ensures var marked := before["title" := reason]["data-link-error" := reason];
        ("data-suggested-fix" in marked <==> "data-suggested-fix" in before)
        && marked["data-suggested-fix" := suggested]["data-fix-message" := message]["data-link-error"] == reason
      ensures "link-valid" !in classes ==> "link-valid" !in classes + {"link-suggested-fix"}
    {
      assert "data-suggested-fix"[5] != "data-link-error"[5];
      assert "data-fix-message"[5] != "data-link-error"[5];
      assert "link-valid"[5] != "link-suggested-fix"[5];
    }

    /** validateAnchorLink: the target is looked up among the page's ids. */
    method ValidateAnchorLink(link: Anchor, href: string, allIds: seq<string>)
      requires StartsWith(href, "#")
      modifies link
      ensures var target := href[1..];
        (target != "" && target in allIds) ==>
          link.classes == old(link.classes) + {"link-valid"} - {"link-broken", "link-fixed"}
          && link.attrs == old(link.attrs)
      ensures var target := href[1..];
        !(target != "" && target in allIds) ==> MissingAnchorReported(link, target, allIds, old(link.attrs))
      ensures link.href == old(link.href)
    {
      var target := href[1..];
      if target != "" && target in allIds {
        MarkAsValid(link);
      } else {
        ReportMissingAnchor(link, target, allIds);
      }
    }

    /** A link to a missing anchor is marked broken with the anchor named in its error, and
        carries a suggestion exactly when a similar id exists or it already had one. */
    ghost predicate MissingAnchorReported(link: Anchor, target: string, allIds: seq<string>,
                                          before: map<string, string>)
      reads link
    {
      "link-broken" in link.classes && "link-valid" !in link.classes
      && "data-link-error" in link.attrs
      && link.attrs["data-link-error"] == "锚点 #" + target + " 不存在"
      && ("data-suggested-fix" in link.attrs <==>
            (FindSimilarAnchor(target, allIds).Some? && Truthy(FindSimilarAnchor(target, allIds).value))
            || "data-suggested-fix" in before)
    }

    /** The else branch of validateAnchorLink. */
    method ReportMissingAnchor(link: Anchor, target: string, allIds: seq<string>)
      modifies link
      ensures MissingAnchorReported(link, target, allIds, old(link.attrs))
      ensures link.href == old(link.href)
    {
      var reason := "锚点 #" + target + " 不存在";
      MarkAsBroken(link, reason);
      var similar := FindSimilarAnchor(target, allIds);
      if similar.Some? && Truthy(similar.value) {
        BrokenThenSuggestion(old(link.attrs), reason, "#" + similar.value, "建议修改为 #" + similar.value, link.classes);
        SuggestFix(link, "#" + similar.value, "建议修改为 #" + similar.value);
      } else {
        BrokenThenSuggestion(old(link.attrs), reason, "", "", link.classes);
      }
    }

    /** attemptLinkFix: apply the first accepted strategy, else mark the link broken. */
    method AttemptLinkFix(link: Anchor, href: string) returns (fixed: bool)
      modifies link
      ensures fixed <==> ChooseFix(href, validatedLinks).Some?
      ensures fixed ==>
        link.href == ChooseFix(href, validatedLinks).value
        && link.attrs == old(link.attrs)["data-original-href" := href]["data-auto-fixed" := "true"]
        && link.classes == old(link.classes) + {"link-fixed"} - {"link-broken"}
      ensures !fixed ==>
        link.href == old(link.href)
        && link.attrs == old(link.attrs)["title" := "无法访问: " + href]["data-link-error" := "无法访问: " + href]
        && link.classes == old(link.classes) + {"link-broken"} - {"link-valid", "link-fixed"}
      ensures link.hasExternalIcon == old(link.hasExternalIcon)
    {
      var strategies := Candidates(href);
      // the loop stops at the first accepted strategy, which is then applied
      var i := 0;
      while i < |strategies| && !Accepts(strategies[i], href, validatedLinks)
        invariant 0 <= i <= |strategies|
        invariant forall j :: 0 <= j < i ==> !Accepts(strategies[j], href, validatedLinks)
      {
        i := i + 1;
      }
      if i < |strategies| {
        var candidate := strategies[i];
        ChooseFixFirst(href, validatedLinks, i);
        link.href := candidate.value;
        link.attrs := link.attrs["data-original-href" := href]["data-auto-fixed" := "true"];
        MarkAsFixed(link);
        return true;
      }
      MarkAsBroken(link, "无法访问: " + href);
      return false;
    }

    /** One iteration of validateAllLinks's loop: what it does to the link and the memo,
        and which counters it moves. */
    method ValidateOne(link: Anchor, allIds: seq<string>, probes: string -> (Probe, Probe))
        returns (step: Step)
      requires Valid()
      modifies this, link
      ensures Valid()
      ensures StepOfKind(step, Kind(old(link.href)))
      // an external link is marked external
      ensures Kind(old(link.href)) == External ==>
        link.classes == old(link.classes) + {"link-external"}
        && link.attrs == old(link.attrs)["target" := "_blank"]["rel" := "noopener noreferrer"]
        && link.href == old(link.href) && link.hasExternalIcon
      // an anchor link is valid iff its target id is on the page, and is otherwise reported
      ensures Kind(old(link.href)) == AnchorLink ==>
        var target := old(link.href)[1..];
        link.href == old(link.href)
        && (target != "" && target in allIds ==> "link-valid" in link.classes && "link-broken" !in link.classes)
        && (!(target != "" && target in allIds) ==> MissingAnchorReported(link, target, allIds, old(link.attrs)))
      // an internal link is valid iff its check passes, else repaired iff a fix is chosen,
      // else broken
      ensures Kind(old(link.href)) == Internal ==>
        var href := old(link.href);
        var ok := old(CheckedOk(href, CheckLinkExists(probes(href).0, probes(href).1)));
        var fix := ChooseFix(href, old(validatedLinks));
        (step == CountValid(false) <==> ok)
        && (step == CountValid(true) <==> !ok && fix.Some?)
        && (step == CountBroken <==> !ok && fix.None?)
        && (ok ==> link.href == href && link.attrs == old(link.attrs)
                   && link.classes == old(link.classes) + {"link-valid"} - {"link-broken", "link-fixed"})
        && (!ok && fix.Some? ==>
              link.href == fix.value
              && link.attrs == old(link.attrs)["data-original-href" := href]["data-auto-fixed" := "true"]
              && link.classes == old(link.classes) + {"link-fixed"} - {"link-broken"})
        && (!ok && fix.None? ==>
              link.href == href
              && link.attrs == old(link.attrs)["title" := "无法访问: " + href]["data-link-error" := "无法访问: " + href]
              && link.classes == old(link.classes) + {"link-broken"} - {"link-valid", "link-fixed"})
    {
      var href := link.href;
      if IsExternalLink(href) {
        MarkAsExternal(link);
        step := CountExternal;
      } else if IsAnchorLink(href) {
        ValidateAnchorLink(link, href, allIds);
        step := CountNothing;
      } else {
        var (head, get) := probes(href);
        var ok := ValidateInternalLink(href, CheckLinkExists(head, get));
        if ok {
          MarkAsValid(link);
          step := CountValid(false);
        } else {
          var fixed := AttemptLinkFix(link, href);
          step := if fixed then CountValid(true) else CountBroken;
        }
      }
    }

    /** validateAllLinks: classify each link in document order and tally the results.
        `steps` is the step each link took, in order. */
    method ValidateAllLinks(links: seq<Anchor>, allIds: seq<string>, probes: string -> (Probe, Probe))
        returns (r: Results, ghost steps: seq<Step>)
      requires Valid()
      requires forall i, j :: 0 <= i < j < |links| ==> links[i] != links[j]
      modifies this, set l | l in links
      ensures Valid()
      ensures |steps| == |links| && r == Tally(steps)
      ensures forall i :: 0 <= i < |links| ==> StepOfKind(steps[i], Kind(old(links[i].href)))
      ensures r.total == |links|
      ensures r.external == CountKind(old(Hrefs(links)), External)
      ensures r.valid + r.broken == CountKind(old(Hrefs(links)), Internal)
      ensures r.valid + r.broken + r.external + CountKind(old(Hrefs(links)), AnchorLink) == r.total
      ensures r.fixed <= r.valid
    {
      ghost var hs := Hrefs(links);
      r := Results(0, 0, 0, 0, 0);
      steps := [];
      var i := 0;
      while i < |links|
        invariant 0 <= i <= |links|
        invariant Valid()
        invariant forall j :: i <= j < |links| ==> links[j].href == hs[j]
        invariant |steps| == i && r == Tally(steps)
        invariant forall j :: 0 <= j < i ==> StepOfKind(steps[j], Kind(hs[j]))
      {
        var step := ValidateOne(links[i], allIds, probes);
        r := Bump(r, step);
        TallySnoc(steps, step);
        StepsSnoc(steps, step, hs, i);
        steps := steps + [step];
        i := i + 1;
      }
      TallyCountsKinds(steps, hs);
      CountKindsSum(hs);
    }
  }
}
