/** The small DOM library that stands in for jQuery: a collection built from a selector,
    its `each` loop and the class, attribute and content accessors over it, the static
    `extend`, the option handling of `ajax`, and `deepClone`. JavaScript values are a
    datatype; elements and plain objects that the library changes in place are classes. */
module ModernCore {
  import opened Js

  /** A JavaScript value as the library sees it. Objects are plain objects (own keys);
      functions are opaque references. */
  datatype Value =
    | Undefined
    | Null
    | Bool(b: bool)
    | Num(n: int)
    | Str(s: string)
    | Date(time: int)
    | Func(id: nat)
    | Arr(elems: seq<Value>)
    | Obj(props: map<string, Value>)

  predicate TruthyValue(v: Value) {
    match v
    case Undefined => false
    case Null => false
    case Bool(b) => b
    case Num(n) => n != 0
    case Str(s) => s != ""
    case _ => true
  }

  /** Property lookup on own keys: a missing key reads undefined. */
  function Get(m: map<string, Value>, key: string): Value {
    if key in m then m[key] else Undefined
  }

  // ------------------------------------------------------------ deepClone

  /** utils.deepClone: primitives, null and functions are returned as they are, a date is
      rebuilt from its time, an array is mapped element by element and a plain object key
      by key. The clone equals the original in every part. */
  function DeepClone(v: Value): (r: Value)
    ensures r == v
  {
    match v
    case Date(t) => Date(t)
    case Arr(es) =>
      var c := seq(|es|, i requires 0 <= i < |es| => DeepClone(es[i]));
      assert c == es;
      Arr(c)
    case Obj(m) =>
      var c := map k | k in m :: DeepClone(m[k]);
      assert c == m;
      Obj(c)
    case _ => v
  }

  // ------------------------------------------------------------ extend

  /** A plain object whose own properties the library overwrites. */
  class JsObject {
    var props: map<string, Value>

    constructor(props: map<string, Value>)
      ensures this.props == props
    {
      this.props := props;
    }
  }

  /** extend: every own key of source is copied into target, whatever it held before; other
      target keys are kept; target itself is returned. */
  method Extend(target: JsObject, source: map<string, Value>) returns (r: JsObject)
    modifies target
    ensures r == target
    ensures target.props == old(target.props) + source
  {
    var pending := source.Keys;
    while pending != {}
      invariant pending <= source.Keys
      invariant target.props == old(target.props) + map k | k in source.Keys - pending :: source[k]
      decreases |pending|
    {
      var key :| key in pending;
      target.props := target.props[key := source[key]];
      pending := pending - {key};
    }
    assert source.Keys - pending == source.Keys;
    assert (map k | k in source.Keys :: source[k]) == source;
    r := target;
  }

  // ------------------------------------------------------------ ajax

  const DefaultHeaders: Value := Obj(map["Content-Type" := Str("application/json")])

  /** The request body: a string is sent as it is, anything else as its JSON text. */
  datatype Body = Text(s: string) | JsonOf(v: Value)

  /** The arguments ajax hands to fetch, with the abort timer's delay. */
  datatype FetchRequest = FetchRequest(url: Value, verb: Value, headers: Value, body: Option<Body>, timeout: Value)

  /** ajax, up to the fetch call: the caller's options override the defaults (method GET,
      the JSON content type, a 10 second timeout) key by key, and a body is attached only
      when there is data and the method is not GET. */
  method AjaxRequest(options: map<string, Value>) returns (req: FetchRequest)
    ensures req.url == Get(options, "url")
    ensures req.verb == if "method" in options then options["method"] else Str("GET")
    ensures req.headers == if "headers" in options then options["headers"] else DefaultHeaders
    ensures req.timeout == if "timeout" in options then options["timeout"] else Num(10000)
    ensures req.body.Some? <==> TruthyValue(Get(options, "data")) && req.verb != Str("GET")
    ensures req.body.Some? ==>
      req.body == if options["data"].Str? then Some(Text(options["data"].s)) else Some(JsonOf(options["data"]))
  {
    var defaults := new JsObject(map["method" := Str("GET"), "headers" := DefaultHeaders, "timeout" := Num(10000)]);
    var merged := Extend(defaults, options);
    var m := merged.props;
    var data := Get(m, "data");
    var body := None;
    if TruthyValue(data) && Get(m, "method") != Str("GET") {
      body := Some(if data.Str? then Text(data.s) else JsonOf(data));
    }
    req := FetchRequest(Get(m, "url"), Get(m, "method"), Get(m, "headers"), body, Get(m, "timeout"));
  }

  /** What reading the body as JSON gives: a value, or the syntax error `response.json()`
      rejects with. */
  datatype JsonRead = Parsed(value: Value) | Unparsable(error: string)

  /** What fetch settles with: a network failure (an abort by the timer included) or a
      response, with its body as text and as JSON. */
  datatype FetchOutcome =
    | NetworkError(error: string)
    | Response(ok: bool, status: nat, statusText: string, text: string, json: JsonRead)

  /** The data a successful read of the body gives. */
  datatype AjaxData = TextData(s: string) | JsonData(v: Value)

  /** What the promise returned by ajax settles with. */
  datatype AjaxResult = Resolved(data: AjaxData) | Rejected(error: string)

  /** The argument the success callback is called with, if the chain reaches it, and the
      settlement of the promise; the error callback is called with the rejection. */
  datatype AjaxSettlement = AjaxSettlement(successArg: Option<AjaxData>, result: AjaxResult)

  /** The promise chain after fetch: a response that is not ok becomes the error
      `HTTP <status>: <statusText>`; otherwise the body is read as JSON when the data type
      is exactly `'json'` and as text otherwise, and a body that does not parse rejects.
      The data read is handed to the success callback; `successThrows` is what that
      callback throws (None when it returns or is absent), which the catch turns into the
      rejection. */
  function AjaxSettle(dataType: Value, outcome: FetchOutcome, successThrows: Option<string>): (r: AjaxSettlement)
    ensures r.successArg.Some? <==>
      outcome.Response? && outcome.ok && (dataType == Str("json") ==> outcome.json.Parsed?)
    ensures r.successArg.Some? ==>
      r.successArg.value == if dataType == Str("json") then JsonData(outcome.json.value) else TextData(outcome.text)
    ensures r.result.Resolved? <==> r.successArg.Some? && successThrows.None?
    ensures r.result.Resolved? ==> r.result.data == r.successArg.value
    ensures outcome.NetworkError? ==> r.result == Rejected(outcome.error)
    ensures outcome.Response? && !outcome.ok ==>
      r.result == Rejected("HTTP " + DecimalString(outcome.status) + ": " + outcome.statusText)
    ensures outcome.Response? && outcome.ok && dataType == Str("json") && outcome.json.Unparsable? ==>
      r.result == Rejected(outcome.json.error)
    ensures r.successArg.Some? && successThrows.Some? ==> r.result == Rejected(successThrows.value)
  {
    match outcome
    case NetworkError(e) => AjaxSettlement(None, Rejected(e))
    case Response(ok, status, statusText, text, json) =>
      if !ok then AjaxSettlement(None, Rejected("HTTP " + DecimalString(status) + ": " + statusText))
      else if dataType == Str("json") && json.Unparsable? then AjaxSettlement(None, Rejected(json.error))
      else
        var data := if dataType == Str("json") then JsonData(json.value) else TextData(text);
        if successThrows.Some? then AjaxSettlement(Some(data), Rejected(successThrows.value))
        else AjaxSettlement(Some(data), Resolved(data))
  }

  /** Two failed responses with different status codes are told apart by their errors. */
  lemma HttpErrorsDistinct(s1: nat, s2: nat, text: string)
    requires s1 != s2
    ensures AjaxSettle(Undefined, Response(false, s1, text, "", Unparsable("")), None)
         != AjaxSettle(Undefined, Response(false, s2, text, "", Unparsable("")), None)
  {
    DigitsValueOfDecimal(s1);
    DigitsValueOfDecimal(s2);
    MiddleDistinct("HTTP ", DecimalString(s1), DecimalString(s2), ": ", text);
  }

  /** Strings that differ only in their middle part are different. */
  lemma MiddleDistinct(p: string, a: string, b: string, q: string, t: string)
    requires a != b
    ensures p + a + q + t != p + b + q + t
  {
    if |a| == |b| {
      assert (p + a + q + t)[|p|..|p| + |a|] == a;
      assert (p + b + q + t)[|p|..|p| + |b|] == b;
    } else {
      assert |p + a + q + t| != |p + b + q + t|;
    }
  }

  // ------------------------------------------------------------ the collection

  /** A DOM element with the parts the accessors read and write. */
  class Element {
    var classes: set<string>
    var attributes: map<string, string>
    var innerHTML: string
    var textContent: string
    var display: string

    constructor()
      ensures classes == {} && attributes == map[] && innerHTML == "" && textContent == "" && display == ""
    {
      classes, attributes, innerHTML, textContent, display := {}, map[], "", "", "";
    }
  }

  /** The selector passed to the library: a falsy value, a CSS selector with the elements
      querySelectorAll returns for it, a node, the window, or another object. */
  datatype Selector = Falsy | Css(text: string, matches: seq<Element>) | Node(node: Element) | Window | OtherObject

  predicate DistinctElements(s: seq<Element>) {
    forall i, j :: 0 <= i < j < |s| ==> s[i] != s[j]
  }

  /** The markup of a single text node: `&`, no-break space, `<` and `>` become character
      references, as the HTML serialisation of text does. */
  function EscapeText(s: string): (r: string)
    ensures |r| >= |s|
    ensures forall i :: 0 <= i < |r| ==> r[i] != '<' && r[i] != '>'
    ensures (forall i :: 0 <= i < |s| ==> s[i] !in "&\U{A0}<>") ==> r == s
  {
    if s == [] then []
    else
      var c := s[0];
      (if c == '&' then "&amp;"
       else if c == '\U{A0}' then "&nbsp;"
       else if c == '<' then "&lt;"
       else if c == '>' then "&gt;"
       else [c]) + EscapeText(s[1..])
  }

  /** What a getter of the collection gives back: a value, `undefined`, or the TypeError
      thrown when the first item lacks the method the getter calls. */
  datatype Read<T> = Returned(value: T) | ReturnedUndefined | ThrowsTypeError

  /** What `this[i]` holds: an element or the window. */
  datatype Item = ElementItem(element: Element) | WindowItem

  /** The outcome of each's loop: how many callbacks ran. */
  function VisitedCount(length: nat, result: nat -> Value, from: nat): (n: nat)
    requires from <= length
    ensures from <= n <= length
    decreases length - from
  {
    if from == length then length
    else if result(from) == Bool(false) then from + 1
    else VisitedCount(length, result, from + 1)
  }

  /** The number of callbacks each runs is one more than the first index whose callback
      returns exactly `false`, or the whole length when none does. */
  lemma {:induction false} VisitedCountStops(length: nat, result: nat -> Value, from: nat)
    requires from <= length
    ensures var n := VisitedCount(length, result, from);
      (forall i :: from <= i < n - 1 ==> result(i) != Bool(false))
      && (n < length ==> n > from && result(n - 1) == Bool(false))
      && (n == length && n > from ==> forall i :: from <= i < n - 1 ==> result(i) != Bool(false))
    decreases length - from
  {
    if from < length && result(from) != Bool(false) {
      VisitedCountStops(length, result, from + 1);
    }
  }

  class Collection {
    var items: seq<Item>

    /** The elements held, for frames. */
    function Elements(): set<Element>
      reads this
    {
      set i | 0 <= i < |items| && items[i].ElementItem? :: items[i].element
    }

    /** The library never holds one element twice (querySelectorAll returns each once). */
    ghost predicate Valid()
      reads this
    {
      forall i, j :: 0 <= i < j < |items| && items[i].ElementItem? && items[j].ElementItem? ==> items[i].element != items[j].element
    }

    /** init: a falsy selector (the empty string included) gives an empty collection; a
        string gives its matches; a node or the window gives a collection of one; any other
        object gives an empty one. */
    constructor(selector: Selector)
      requires selector.Css? ==> DistinctElements(selector.matches)
      ensures Valid()
      ensures selector.Falsy? || (selector.Css? && selector.text == "") || selector.OtherObject? ==> items == []
      ensures selector.Css? && selector.text != "" ==>
        |items| == |selector.matches| && forall i :: 0 <= i < |items| ==> items[i] == ElementItem(selector.matches[i])
      ensures selector.Node? ==> items == [ElementItem(selector.node)]
      ensures selector.Window? ==> items == [WindowItem]
    {
      var held: seq<Item> := [];
      match selector {
        case Css(text, matches) =>
          if text != "" {
            var i := 0;
            while i < |matches|
              invariant 0 <= i <= |matches|
              invariant |held| == i && forall k :: 0 <= k < i ==> held[k] == ElementItem(matches[k])
            {
              held := held + [ElementItem(matches[i])];
              i := i + 1;
            }
          }
        case Node(node) => held := [ElementItem(node)];
        case Window => held := [WindowItem];
        case _ =>
      }
      items := held;
    }

    /** each: the callback runs on indices 0, 1, ... in order and the loop stops right
        after the first call that returns exactly `false`. The indices called are returned. */
    method Each(result: nat -> Value) returns (called: seq<nat>)
      ensures |called| == VisitedCount(|items|, result, 0)
      ensures forall i :: 0 <= i < |called| ==> called[i] == i
      ensures forall i :: 0 <= i < |called| - 1 ==> result(i) != Bool(false)
      ensures |called| < |items| ==> |called| > 0 && result(|called| - 1) == Bool(false)
    {
      called := [];
      var i := 0;
      while i < |items|
        invariant 0 <= i <= |items| && |called| == i
        invariant forall k :: 0 <= k < i ==> called[k] == k && result(k) != Bool(false)
        invariant VisitedCount(|items|, result, 0) == VisitedCount(|items|, result, i)
      {
        called := called + [i];
        if result(i) == Bool(false) {
          break;
        }
        i := i + 1;
      }
      VisitedCountStops(|items|, result, 0);
    }

    /** hasClass: false on an empty collection; otherwise the first element's classes. The
        window has no `classList`, so asking it throws a TypeError. */
    function HasClass(name: string): (r: Read<bool>)
      reads this, Elements()
      ensures !r.ReturnedUndefined?
      ensures r.ThrowsTypeError? <==> |items| > 0 && items[0].WindowItem?
      ensures |items| == 0 ==> r == Returned(false)
      ensures |items| > 0 && items[0].ElementItem? ==> r.Returned? && (r.value <==> name in items[0].element.classes)
    {
      if |items| == 0 then Returned(false)
      else match items[0]
        case WindowItem => ThrowsTypeError
        case ElementItem(e) => Returned(name in e.classes)
    }

    /** attr(name): null (None) on an empty collection or when the first element lacks the
        attribute. The window has no `getAttribute`, so asking it throws a TypeError. */
    function GetAttr(name: string): (r: Read<Option<string>>)
      reads this, Elements()
      ensures !r.ReturnedUndefined?
      ensures r.ThrowsTypeError? <==> |items| > 0 && items[0].WindowItem?
      ensures |items| == 0 ==> r == Returned(None)
      ensures r.Returned? && r.value.Some? ==>
        |items| > 0 && items[0].ElementItem? && name in items[0].element.attributes
        && r.value.value == items[0].element.attributes[name]
      ensures |items| > 0 && items[0].ElementItem? && name in items[0].element.attributes ==>
        r == Returned(Some(items[0].element.attributes[name]))
    {
      if |items| == 0 then Returned(None)
      else match items[0]
        case WindowItem => ThrowsTypeError
        case ElementItem(e) => Returned(if name in e.attributes then Some(e.attributes[name]) else None)
    }

    /** html(): the empty string on an empty collection; the window has no `innerHTML`
        property, so reading it gives undefined. */
    function GetHtml(): (r: Read<string>)
      reads this, Elements()
      ensures !r.ThrowsTypeError?
      ensures r.ReturnedUndefined? <==> |items| > 0 && items[0].WindowItem?
      ensures |items| == 0 ==> r == Returned("")
      ensures |items| > 0 && items[0].ElementItem? ==> r == Returned(items[0].element.innerHTML)
    {
      if |items| == 0 then Returned("")
      else match items[0]
        case WindowItem => ReturnedUndefined
        case ElementItem(e) => Returned(e.innerHTML)
    }

    /** text(): the empty string on an empty collection; the window has no `textContent`
        property, so reading it gives undefined. */
    function GetText(): (r: Read<string>)
      reads this, Elements()
      ensures !r.ThrowsTypeError?
      ensures r.ReturnedUndefined? <==> |items| > 0 && items[0].WindowItem?
      ensures |items| == 0 ==> r == Returned("")
      ensures |items| > 0 && items[0].ElementItem? ==> r == Returned(items[0].element.textContent)
    {
      if |items| == 0 then Returned("")
      else match items[0]
        case WindowItem => ReturnedUndefined
        case ElementItem(e) => Returned(e.textContent)
    }

    /** addClass on every element. */
    method AddClass(name: string)
      requires Valid() && forall i :: 0 <= i < |items| ==> items[i].ElementItem?
      modifies Elements()`classes
      ensures forall i :: 0 <= i < |items| ==> items[i].element.classes == old(items[i].element.classes) + {name}
    {
      var i := 0;
      while i < |items|
        invariant 0 <= i <= |items|
        invariant forall k :: 0 <= k < i ==> items[k].element.classes == old(items[k].element.classes) + {name}
        invariant forall k :: i <= k < |items| ==> items[k].element.classes == old(items[k].element.classes)
      {
        var e := items[i].element;
        e.classes := e.classes + {name};
        i := i + 1;
      }
    }

    /** removeClass on every element. */
    method RemoveClass(name: string)
      requires Valid() && forall i :: 0 <= i < |items| ==> items[i].ElementItem?
      modifies Elements()`classes
      ensures forall i :: 0 <= i < |items| ==> items[i].element.classes == old(items[i].element.classes) - {name}
    {
      var i := 0;
      while i < |items|
        invariant 0 <= i <= |items|
        invariant forall k :: 0 <= k < i ==> items[k].element.classes == old(items[k].element.classes) - {name}
        invariant forall k :: i <= k < |items| ==> items[k].element.classes == old(items[k].element.classes)
      {
        var e := items[i].element;
        e.classes := e.classes - {name};
        i := i + 1;
      }
    }

    /** toggleClass on every element: each one gains the class if it lacked it and loses it
        otherwise. */
    method ToggleClass(name: string)
      requires Valid() && forall i :: 0 <= i < |items| ==> items[i].ElementItem?
      modifies Elements()`classes
      ensures forall i :: 0 <= i < |items| ==>
        items[i].element.classes ==
          if name in old(items[i].element.classes) then old(items[i].element.classes) - {name}
          else old(items[i].element.classes) + {name}
    {
      var i := 0;
      while i < |items|
        invariant 0 <= i <= |items|
        invariant forall k :: 0 <= k < i ==>
          items[k].element.classes ==
            if name in old(items[k].element.classes) then old(items[k].element.classes) - {name}
            else old(items[k].element.classes) + {name}
        invariant forall k :: i <= k < |items| ==> items[k].element.classes == old(items[k].element.classes)
      {
        var e := items[i].element;
        if name in e.classes {
          e.classes := e.classes - {name};
        } else {
          e.classes := e.classes + {name};
        }
        i := i + 1;
      }
    }

    /** attr(name, value) on every element. */
    method SetAttr(name: string, value: string)
      requires Valid() && forall i :: 0 <= i < |items| ==> items[i].ElementItem?
      modifies Elements()`attributes
      ensures forall i :: 0 <= i < |items| ==> items[i].element.attributes == old(items[i].element.attributes)[name := value]
    {
      var i := 0;
      while i < |items|
        invariant 0 <= i <= |items|
        invariant forall k :: 0 <= k < i ==> items[k].element.attributes == old(items[k].element.attributes)[name := value]
        invariant forall k :: i <= k < |items| ==> items[k].element.attributes == old(items[k].element.attributes)
      {
        var e := items[i].element;
        e.attributes := e.attributes[name := value];
        i := i + 1;
      }
    }

    /** text(content) on every element: the children are replaced by one text node, so the
        markup read back is the text escaped. */
    method SetText(content: string)
      requires forall i :: 0 <= i < |items| ==> items[i].ElementItem?
      modifies Elements()`textContent, Elements()`innerHTML
      ensures forall i :: 0 <= i < |items| ==>
        items[i].element.textContent == content && items[i].element.innerHTML == EscapeText(content)
    {
      var i := 0;
      while i < |items|
        invariant 0 <= i <= |items|
        invariant forall k :: 0 <= k < i ==>
          items[k].element.textContent == content && items[k].element.innerHTML == EscapeText(content)
      {
        items[i].element.textContent := content;
        items[i].element.innerHTML := EscapeText(content);
        i := i + 1;
      }
    }

    /** show / hide: the display style is cleared or set to `none` on every element. */
    method SetDisplay(visible: bool)
      requires forall i :: 0 <= i < |items| ==> items[i].ElementItem?
      modifies Elements()`display
      ensures forall i :: 0 <= i < |items| ==> items[i].element.display == if visible then "" else "none"
    {
      var i := 0;
      while i < |items|
        invariant 0 <= i <= |items|
        invariant forall k :: 0 <= k < i ==> items[k].element.display == if visible then "" else "none"
      {
        items[i].element.display := if visible then "" else "none";
        i := i + 1;
      }
    }
  }

  /** Setting an attribute and reading it back through the collection gives the value
      written; on an empty collection nothing is written and null is read. */
  method SetThenGetAttr(c: Collection, name: string, value: string) returns (read: Read<Option<string>>)
    requires c.Valid() && forall i :: 0 <= i < |c.items| ==> c.items[i].ElementItem?
    modifies c.Elements()`attributes
    ensures read == Returned(if |c.items| > 0 then Some(value) else None)
  {
    c.SetAttr(name, value);
    read := c.GetAttr(name);
  }

  /** After addClass, hasClass answers true exactly when the collection is not empty. */
  method AddThenHasClass(c: Collection, name: string) returns (has: Read<bool>)
    requires c.Valid() && forall i :: 0 <= i < |c.items| ==> c.items[i].ElementItem?
    modifies c.Elements()`classes
    ensures has == Returned(|c.items| > 0)
  {
    c.AddClass(name);
    has := c.HasClass(name);
  }

  /** After removeClass, hasClass answers false. */
  method RemoveThenHasClass(c: Collection, name: string) returns (has: Read<bool>)
    requires c.Valid() && forall i :: 0 <= i < |c.items| ==> c.items[i].ElementItem?
    modifies c.Elements()`classes
    ensures has == Returned(false)
  {
    c.RemoveClass(name);
    has := c.HasClass(name);
  }

  /** toggleClass flips what hasClass answers on a non-empty collection. */
  method ToggleThenHasClass(c: Collection, name: string) returns (before: Read<bool>, after: Read<bool>)
    requires c.Valid() && forall i :: 0 <= i < |c.items| ==> c.items[i].ElementItem?
    modifies c.Elements()`classes
    ensures before.Returned? && after.Returned?
    ensures |c.items| > 0 ==> after.value == !before.value
    ensures |c.items| == 0 ==> !before.value && !after.value
  {
    before := c.HasClass(name);
    c.ToggleClass(name);
    after := c.HasClass(name);
  }

  /** Setting the text and reading the collection back gives the text itself and, as
      markup, its escaped form; an empty collection reads empty strings. */
  method SetThenGetText(c: Collection, content: string) returns (text: Read<string>, html: Read<string>)
    requires forall i :: 0 <= i < |c.items| ==> c.items[i].ElementItem?
    modifies c.Elements()`textContent, c.Elements()`innerHTML
    ensures |c.items| > 0 ==> text == Returned(content) && html == Returned(EscapeText(content))
    ensures |c.items| == 0 ==> text == Returned("") && html == Returned("")
  {
    c.SetText(content);
    text := c.GetText();
    html := c.GetHtml();
  }

  /** `$(window)` holds the window alone: asking it for a class or an attribute throws a
      TypeError, and reading its markup or text gives undefined. */
  method ReadWindow(name: string) returns (has: Read<bool>, attr: Read<Option<string>>, html: Read<string>, text: Read<string>)
    ensures has == ThrowsTypeError && attr == ThrowsTypeError
    ensures html == ReturnedUndefined && text == ReturnedUndefined
  {
    var c := new Collection(Window);
    has := c.HasClass(name);
    attr := c.GetAttr(name);
    html := c.GetHtml();
    text := c.GetText();
  }
}
