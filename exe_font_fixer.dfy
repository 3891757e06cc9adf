/** The font fixer for the packaged desktop build: it tells a packaged (or offline)
    environment from the web, records that on the document element, and gives every
    element a safe font stack, the CJK stack plus the `chinese-text` class when the
    element's text contains Chinese. Elements are addressed by their path of child
    indices from the root the fixer starts at; their styles live in a page object that
    the fixer updates in place. */
module ExeFontFixer {
  import opened Js

  // ------------------------------------------------------------ environment

  /** What the environment test reads from location, navigator and window. */
  datatype Env = Env(
    protocol: string, hostname: string, href: string, userAgent: string,
    processType: bool,      // window.process && window.process.type is truthy
    requireDefined: bool,   // window.require !== undefined
    online: bool)           // navigator.onLine

  /** isExeEnvironment: any one sign of a packaged or offline page is enough. */
  predicate IsExeEnvironment(env: Env) {
    || env.protocol == "file:"
    || env.hostname == ""
    || IndexOf(env.userAgent, "Electron") > -1
    || IndexOf(env.userAgent, "nwjs") > -1
    || env.processType
    || env.requireDefined
    || !env.online
    || IndexOf(env.href, "file://") == 0
  }

  /** detectEnvironment: the `data-env` and `data-online` attributes of the document
      element. */
  function DetectEnvironment(env: Env): (attrs: map<string, string>)
    ensures attrs.Keys == {"data-env", "data-online"}
    ensures attrs["data-env"] == (if IsExeEnvironment(env) then "exe" else "web")
    ensures attrs["data-online"] == (if env.online then "true" else "false")
  {
    map["data-env" := if IsExeEnvironment(env) then "exe" else "web",
        "data-online" := if !env.online then "false" else "true"]
  }

  /** An offline page is always treated as packaged, and so is any page opened from a
      file. */
  lemma OfflineOrFileIsExe(env: Env)
    ensures DetectEnvironment(env)["data-online"] == "false" ==> DetectEnvironment(env)["data-env"] == "exe"
    ensures StartsWith(env.href, "file://") ==> DetectEnvironment(env)["data-env"] == "exe"
  {
    if StartsWith(env.href, "file://") {
      assert OccursAt(env.href, "file://", 0);
      StartsWithIncludes(env.href, "file://");
    }
  }

  /** A page served over http from a named host, online, in a plain browser, is `web`. */
  lemma PlainWebPage(host: string, path: string)
    requires host != ""
    ensures DetectEnvironment(Env("https:", host, "https://" + host + path, "Mozilla/5.0", false, false, true))["data-env"] == "web"
  {
    var env := Env("https:", host, "https://" + host + path, "Mozilla/5.0", false, false, true);
    assert !OccursAt(env.href, "file://", 0) by {
      assert env.href[0] == 'h';
    }
    assert 'E' !in env.userAgent && 'n' !in env.userAgent;
    NotIncludesFirstChar(env.userAgent, "Electron");
    NotIncludesFirstChar(env.userAgent, "nwjs");
  }

  // ------------------------------------------------------------ fonts

  /** The safe font list, in order. */
  const SafeFonts: seq<string> := [
    "Microsoft YaHei", "微软雅黑", "PingFang SC", "Hiragino Sans GB", "SimSun",
    "宋体", "SimHei", "黑体", "Arial", "sans-serif"]

  /** The stack set on elements whose text contains Chinese. */
  const ChineseStack: string := "\"Microsoft YaHei\", \"微软雅黑\", \"SimSun\", \"宋体\", sans-serif"

  /** Array.prototype.join */
  function Join(names: seq<string>, sep: string): (r: string)
    ensures names == [] ==> r == ""
    ensures names != [] ==> EndsWith(r, names[|names| - 1])
  {
    if names == [] then ""
    else if |names| == 1 then names[0]
    else Join(names[..|names| - 1], sep) + sep + names[|names| - 1]
  }

  /** A joined list of two or more names is the join of all but the last, then the
      separator and the last name. */
  lemma JoinSplit(names: seq<string>, sep: string)
    requires |names| >= 2
    ensures Join(names, sep) == Join(names[..|names| - 1], sep) + (sep + names[|names| - 1])
  {
  }

  /** Every name of a joined list occurs in the joined text. */
  lemma {:induction false} JoinIncludesEach(names: seq<string>, sep: string, k: nat)
    requires k < |names|
    ensures Includes(Join(names, sep), names[k])
  {
    if k == |names| - 1 {
      EndsWithIncludes(Join(names, sep), names[k]);
    } else {
      var front := names[..|names| - 1];
      assert names[k] == front[k];
      JoinIncludesEach(front, sep, k);
      IncludesAppendRight(Join(front, sep), sep + names[|names| - 1], names[k]);
      JoinSplit(names, sep);
    }
  }

  /** The stack every element gets first. */
  function SafeStack(): string {
    Join(SafeFonts, ", ")
  }

  /** The safe stack names every safe font and ends with the generic `sans-serif`. */
  lemma SafeStackNamesEveryFont(k: nat)
    requires k < |SafeFonts|
    ensures Includes(SafeStack(), SafeFonts[k])
    ensures EndsWith(SafeStack(), "sans-serif")
  {
    JoinIncludesEach(SafeFonts, ", ", k);
  }

  /** A code unit of the CJK Unified Ideographs block. */
  predicate IsCjk(c: char) {
    '一' <= c <= '鿿'
  }

  /** containsChinese: the text has a code unit in U+4E00..U+9FFF. */
  predicate ContainsChinese(text: string) {
    exists i :: 0 <= i < |text| && IsCjk(text[i])
  }

  lemma ChineseInConcat(a: string, b: string)
    ensures ContainsChinese(a + b) <==> ContainsChinese(a) || ContainsChinese(b)
  {
    if ContainsChinese(a) {
      var i :| 0 <= i < |a| && IsCjk(a[i]);
      assert (a + b)[i] == a[i];
    }
    if ContainsChinese(b) {
      var i :| 0 <= i < |b| && IsCjk(b[i]);
      assert (a + b)[|a| + i] == b[i];
    }
    if ContainsChinese(a + b) {
      var i :| 0 <= i < |a + b| && IsCjk((a + b)[i]);
      if i < |a| {
        assert a[i] == (a + b)[i];
      } else {
        assert b[i - |a|] == (a + b)[i];
      }
    }
  }

  /** The font family an element ends up with. */
  function FontFor(text: string): string {
    if ContainsChinese(text) then ChineseStack else SafeStack()
  }

  // ------------------------------------------------------------ elements

  /** An element: its own text and its child elements. */
  datatype Elem = Elem(text: string, children: seq<Elem>)

  /** textContent: the element's own text followed by its children's, in order. */
  function TextContent(e: Elem): string
    decreases e, |e.children| + 1
  {
    e.text + ChildrenText(e, |e.children|)
  }

  /** The text of the first i children. */
  function ChildrenText(e: Elem, i: nat): string
    requires i <= |e.children|
    decreases e, i
  {
    if i == 0 then "" else ChildrenText(e, i - 1) + TextContent(e.children[i - 1])
  }

  /** A child's text is part of its parent's. */
  lemma {:induction false} ChildTextInParent(e: Elem, i: nat, k: nat)
    requires k < i <= |e.children|
    ensures ContainsChinese(TextContent(e.children[k])) ==> ContainsChinese(ChildrenText(e, i))
    decreases i
  {
    ChineseInConcat(ChildrenText(e, i - 1), TextContent(e.children[i - 1]));
    if k < i - 1 {
      ChildTextInParent(e, i - 1, k);
    }
  }

  /** An element with a Chinese-text child has Chinese text itself, so the fixer gives the
      parent the CJK stack as well. */
  lemma ChineseChildMakesChineseParent(e: Elem, k: nat)
    requires k < |e.children|
    ensures ContainsChinese(TextContent(e.children[k])) ==> FontFor(TextContent(e)) == ChineseStack
  {
    ChildTextInParent(e, |e.children|, k);
    ChineseInConcat(e.text, ChildrenText(e, |e.children|));
  }

  type Path = seq<nat>

  /** The elements of the subtree at `at`, in document order, as (path, textContent). */
  function Preorder(e: Elem, at: Path): seq<(Path, string)>
    decreases e, |e.children| + 1
  {
    [(at, TextContent(e))] + ChildrenPreorder(e, at, |e.children|)
  }

  /** The elements of the subtrees of the first i children, in document order. */
  function ChildrenPreorder(e: Elem, at: Path, i: nat): seq<(Path, string)>
    requires i <= |e.children|
    decreases e, i
  {
    if i == 0 then [] else ChildrenPreorder(e, at, i - 1) + Preorder(e.children[i - 1], at + [i - 1])
  }

  predicate DistinctPaths(steps: seq<(Path, string)>) {
    forall j, k :: 0 <= j < k < |steps| ==> steps[j].0 != steps[k].0
  }

  /** Every path of a subtree extends the subtree's own path, and no two coincide. */
  lemma {:induction false} PreorderShape(e: Elem, at: Path)
    ensures var p := Preorder(e, at);
      && (forall k :: 0 <= k < |p| ==> |at| <= |p[k].0| && p[k].0[..|at|] == at)
      && DistinctPaths(p)
    decreases e, |e.children| + 1
  {
    ChildrenShape(e, at, |e.children|);
  }

  lemma {:induction false} ChildrenShape(e: Elem, at: Path, i: nat)
    requires i <= |e.children|
    ensures var p := ChildrenPreorder(e, at, i);
      && (forall k :: 0 <= k < |p| ==> |at| < |p[k].0| && p[k].0[..|at|] == at && p[k].0[|at|] < i)
      && DistinctPaths(p)
    decreases e, i
  {
    if i > 0 {
      var front := ChildrenPreorder(e, at, i - 1);
      var sub := Preorder(e.children[i - 1], at + [i - 1]);
      ChildrenShape(e, at, i - 1);
      PreorderShape(e.children[i - 1], at + [i - 1]);
      var p := front + sub;
      forall k | 0 <= k < |p|
        ensures |at| < |p[k].0| && p[k].0[..|at|] == at && p[k].0[|at|] < i
      {
        if k >= |front| {
          var q := sub[k - |front|].0;
          assert q[..|at| + 1] == at + [i - 1];
          assert q[..|at|] == q[..|at| + 1][..|at|];
          assert q[|at|] == q[..|at| + 1][|at|];
        }
      }
      forall j, k | 0 <= j < k < |p|
        ensures p[j].0 != p[k].0
      {
        if j < |front| && k >= |front| {
          var q := sub[k - |front|].0;
          assert q[..|at| + 1] == at + [i - 1];
          assert q[|at|] == q[..|at| + 1][|at|];
        }
      }
    }
  }

  // ------------------------------------------------------------ styles

  /** The font family set on each element and the elements carrying `chinese-text`. */
  datatype Styles = Styles(fonts: map<Path, string>, chinese: set<Path>)

  /** The styles after fixing the listed elements one after another. */
  function Apply(s: Styles, steps: seq<(Path, string)>): Styles
    decreases steps
  {
    if steps == [] then s else Apply(Fix(s, steps[0].0, steps[0].1), steps[1..])
  }

  /** The styles after fixing the one element at p whose text is `text`. */
  function Fix(s: Styles, p: Path, text: string): Styles {
    Styles(s.fonts[p := FontFor(text)], if ContainsChinese(text) then s.chinese + {p} else s.chinese)
  }

  lemma {:induction false} ApplyConcat(s: Styles, a: seq<(Path, string)>, b: seq<(Path, string)>)
    ensures Apply(s, a + b) == Apply(Apply(s, a), b)
    decreases a
  {
    if a != [] {
      assert (a + b)[0] == a[0];
      assert (a + b)[1..] == a[1..] + b;
      ApplyConcat(Fix(s, a[0].0, a[0].1), a[1..], b);
    } else {
      assert a + b == b;
    }
  }

  /** Fixing a list of elements leaves every other path as it was. */
  lemma {:induction false} ApplyFrame(s: Styles, steps: seq<(Path, string)>, q: Path)
    requires forall k :: 0 <= k < |steps| ==> steps[k].0 != q
    ensures q in Apply(s, steps).fonts <==> q in s.fonts
    ensures q in s.fonts ==> Apply(s, steps).fonts[q] == s.fonts[q]
    ensures q in Apply(s, steps).chinese <==> q in s.chinese
    decreases steps
  {
    if steps != [] {
      ApplyFrame(Fix(s, steps[0].0, steps[0].1), steps[1..], q);
    }
  }

  /** Fixing a list of distinct elements gives each one the font its own text calls for,
      and `chinese-text` exactly when that text contains Chinese (or it had the class
      already). */
  lemma {:induction false} ApplyFixesEach(s: Styles, steps: seq<(Path, string)>, k: nat)
    requires DistinctPaths(steps) && k < |steps|
    ensures steps[k].0 in Apply(s, steps).fonts && Apply(s, steps).fonts[steps[k].0] == FontFor(steps[k].1)
    ensures steps[k].0 in Apply(s, steps).chinese <==> steps[k].0 in s.chinese || ContainsChinese(steps[k].1)
    decreases steps
  {
    var p := steps[0].0;
    var s1 := Fix(s, p, steps[0].1);
    if k == 0 {
      ApplyFrame(s1, steps[1..], p);
    } else {
      assert DistinctPaths(steps[1..]);
      assert steps[k] == steps[1..][k - 1];
      ApplyFixesEach(s1, steps[1..], k - 1);
      assert steps[k].0 != p;
    }
  }

  /** What fixElementFont on the element at `at` promises: every element of the subtree has
      the font its text calls for and `chinese-text` iff its text contains Chinese (or had
      it); elements outside the subtree are untouched. */
  lemma SubtreeFixed(s: Styles, e: Elem, at: Path)
    ensures var p := Preorder(e, at); var r := Apply(s, p);
      && (forall k :: 0 <= k < |p| ==> p[k].0 in r.fonts && r.fonts[p[k].0] == FontFor(p[k].1))
      && (forall k :: 0 <= k < |p| ==> (p[k].0 in r.chinese <==> p[k].0 in s.chinese || ContainsChinese(p[k].1)))
      && (forall q :: (|q| < |at| || q[..|at|] != at) ==> (q in r.fonts <==> q in s.fonts) && (q in r.chinese <==> q in s.chinese))
  {
    var p := Preorder(e, at);
    PreorderShape(e, at);
    forall k | 0 <= k < |p|
      ensures p[k].0 in Apply(s, p).fonts && Apply(s, p).fonts[p[k].0] == FontFor(p[k].1)
      ensures p[k].0 in Apply(s, p).chinese <==> p[k].0 in s.chinese || ContainsChinese(p[k].1)
    {
      ApplyFixesEach(s, p, k);
    }
    forall q | |q| < |at| || q[..|at|] != at
      ensures (q in Apply(s, p).fonts <==> q in s.fonts) && (q in Apply(s, p).chinese <==> q in s.chinese)
    {
      ApplyFrame(s, p, q);
    }
  }

  /** The page's element styles, which the fixer changes in place. */
  class Page {
    var fonts: map<Path, string>
    var chineseText: set<Path>

    constructor()
      ensures fonts == map[] && chineseText == {}
    {
      fonts, chineseText := map[], {};
    }

    function State(): Styles
      reads this
    {
      Styles(fonts, chineseText)
    }

    /** The treatment of one element: the safe stack, then the CJK stack and the class
        when its text contains Chinese. */
    method FixOne(at: Path, text: string)
      modifies this
      ensures State() == Apply(old(State()), [(at, text)])
    {
      fonts := fonts[at := SafeStack()];
      if ContainsChinese(text) {
        fonts := fonts[at := ChineseStack];
        chineseText := chineseText + {at};
      }
    }

    /** fixElementFont: the element, then each child's subtree in turn. */
    method FixElementFont(e: Elem, at: Path)
      modifies this
      ensures State() == Apply(old(State()), Preorder(e, at))
      decreases e
    {
      FixOne(at, TextContent(e));
      var i := 0;
      while i < |e.children|
        invariant 0 <= i <= |e.children|
        invariant State() == Apply(old(State()), [(at, TextContent(e))] + ChildrenPreorder(e, at, i))
      {
        ghost var before := State();
        FixElementFont(e.children[i], at + [i]);
        ApplyConcat(old(State()), [(at, TextContent(e))] + ChildrenPreorder(e, at, i), Preorder(e.children[i], at + [i]));
        assert [(at, TextContent(e))] + ChildrenPreorder(e, at, i + 1)
          == ([(at, TextContent(e))] + ChildrenPreorder(e, at, i)) + Preorder(e.children[i], at + [i]);
        i := i + 1;
      }
    }

    /** fixFonts: every element querySelectorAll('*') returns, in document order, gets the
        same treatment. */
    method FixFonts(root: Elem)
      modifies this
      ensures State() == Apply(old(State()), Preorder(root, []))
    {
      var all := Preorder(root, []);
      var i := 0;
      while i < |all|
        invariant 0 <= i <= |all|
        invariant State() == Apply(old(State()), all[..i])
      {
        FixOne(all[i].0, all[i].1);
        ApplyConcat(old(State()), all[..i], [all[i]]);
        assert all[..i + 1] == all[..i] + [all[i]];
        i := i + 1;
      }
      assert all[..i] == all;
    }
  }

  /** The loop over all elements and the recursion from the root leave the page in the same
      state. */
  method LoopMatchesRecursion(root: Elem) returns (same: bool)
    ensures same
  {
    var a := new Page();
    var b := new Page();
    a.FixFonts(root);
    b.FixElementFont(root, []);
    same := a.fonts == b.fonts && a.chineseText == b.chineseText;
  }
}
