/** The offline link fixer run with Node over the site's directory: it scans every HTML
    file for `href="…"` attributes, records each internal href once with the files that use
    it and whether its target exists, looks for a replacement for every broken href, and
    reports what it could not fix.

    File-system paths are sequences of segments (`["site", "blog", "post.html"]` is
    `/site/blog/post.html`); the file system is the sequence of the regular files under
    the root directory, in the depth-first order of a directory walk; file contents are an
    oracle parameter and rewriting files is not modelled. */
module BatchLinkFixer {
  import opened Js

  // ---------------------------------------------------------------- path strings

  type Path = seq<string>

  /** c does not occur in s */
  predicate Lacks(s: string, c: char) { forall k :: 0 <= k < |s| ==> s[k] != c }

  /** The index of the first slash of s. */
  function SlashIndex(s: string): (i: nat)
    requires '/' in s
    ensures i < |s| && s[i] == '/'
    ensures forall k :: 0 <= k < i ==> s[k] != '/'
  {
    if s[0] == '/' then 0 else SlashIndex(s[1..]) + 1
  }

  /** String.prototype.split('/') */
  function Split(s: string): (r: seq<string>)
    ensures |r| >= 1 && forall i :: 0 <= i < |r| ==> Lacks(r[i], '/')
    decreases |s|
  {
    if '/' !in s then [s]
    else
      var i := SlashIndex(s);
      [s[..i]] + Split(s[i + 1..])
  }

  /** Array.prototype.join('/') */
  function Join(segs: seq<string>): string
    decreases |segs|
  {
    if |segs| == 0 then ""
    else if |segs| == 1 then segs[0]
    else segs[0] + "/" + Join(segs[1..])
  }

  /** Splitting undoes joining when no segment holds a slash. */
  lemma {:induction false} SplitJoin(segs: seq<string>)
    requires |segs| >= 1 && forall i :: 0 <= i < |segs| ==> Lacks(segs[i], '/')
    ensures Split(Join(segs)) == segs
    decreases |segs|
  {
    if |segs| > 1 {
      SplitCons(segs[0], Join(segs[1..]));
      SplitJoin(segs[1..]);
    }
  }

  /** Splitting a slash-free head joined to the rest by one slash. */
  lemma SplitCons(a: string, rest: string)
    requires Lacks(a, '/')
    ensures Split(a + "/" + rest) == [a] + Split(rest)
  {
    var s := a + "/" + rest;
    assert s[|a|] == '/';
    assert forall k :: 0 <= k < |a| ==> s[k] == a[k];
    assert SlashIndex(s) == |a|;
    assert s[..|a|] == a;
    assert s[|a| + 1..] == rest;
  }

  lemma JoinFirst(segs: seq<string>)
    requires |segs| >= 1 && segs[0] != ""
    ensures |Join(segs)| >= 1 && Join(segs)[0] == segs[0][0]
  {
  }

  lemma {:induction false} JoinNoBackslash(segs: seq<string>)
    requires forall i :: 0 <= i < |segs| ==> Lacks(segs[i], '\\')
    ensures Lacks(Join(segs), '\\')
    decreases |segs|
  {
    if |segs| > 1 {
      JoinNoBackslash(segs[1..]);
    }
  }

  /** A segment a directory walk can produce: not empty, not `.` or `..`, and free of both
      separators. */
  predicate PlainName(s: string) {
    s != "" && s != "." && s != ".." && Lacks(s, '/') && Lacks(s, '\\')
  }

  predicate PlainPath(p: Path) { forall i :: 0 <= i < |p| ==> PlainName(p[i]) }

  // ---------------------------------------------------------------- path operations

  /** One step of POSIX path normalisation. */
  function StepInto(base: Path, seg: string): Path {
    if seg == "" || seg == "." then base
    else if seg == ".." then (if |base| == 0 then base else base[..|base| - 1])
    else base + [seg]
  }

  /** Apply the segments of a relative path to an absolute directory, as path.resolve and
      path.join do. */
  function Normalize(base: Path, segs: seq<string>): Path
    decreases |segs|
  {
    if segs == [] then base else Normalize(StepInto(base, segs[0]), segs[1..])
  }

  lemma {:induction false} NormalizeAppend(base: Path, a: seq<string>, b: seq<string>)
    ensures Normalize(base, a + b) == Normalize(Normalize(base, a), b)
    decreases |a|
  {
    if a != [] {
      assert (a + b)[0] == a[0] && (a + b)[1..] == a[1..] + b;
      NormalizeAppend(StepInto(base, a[0]), a[1..], b);
    } else {
      assert a + b == b;
    }
  }

  lemma {:induction false} NormalizeNames(base: Path, names: seq<string>)
    requires PlainPath(names)
    ensures Normalize(base, names) == base + names
    decreases |names|
  {
    if names != [] {
      NormalizeNames(base + [names[0]], names[1..]);
      assert base + [names[0]] + names[1..] == base + names;
    }
  }

  function Ups(k: nat): (r: seq<string>)
    ensures |r| == k && forall i :: 0 <= i < k ==> r[i] == ".."
  {
    seq(k, i => "..")
  }

  lemma {:induction false} NormalizeUps(base: Path, k: nat)
    requires k <= |base|
    ensures Normalize(base, Ups(k)) == base[..|base| - k]
    decreases k
  {
    if k > 0 {
      assert Ups(k)[1..] == Ups(k - 1);
      NormalizeUps(base[..|base| - 1], k - 1);
      assert base[..|base| - 1][..|base| - 1 - (k - 1)] == base[..|base| - k];
    }
  }

  /** path.dirname of a file path. */
  function Dir(file: Path): Path {
    if |file| == 0 then file else file[..|file| - 1]
  }

  /** The length of the longest common prefix of a and b. */
  function CommonPrefix(a: Path, b: Path): (c: nat)
    ensures c <= |a| && c <= |b| && a[..c] == b[..c]
    ensures c == |a| || c == |b| || a[c] != b[c]
  {
    if |a| == 0 || |b| == 0 || a[0] != b[0] then 0
    else
      var c := CommonPrefix(a[1..], b[1..]);
      assert a[..c + 1] == [a[0]] + a[1..][..c];
      assert b[..c + 1] == [b[0]] + b[1..][..c];
      c + 1
  }

  /** path.relative(from, to), as segments. */
  function Relative(from: Path, to: Path): seq<string> {
    var c := CommonPrefix(from, to);
    Ups(|from| - c) + to[c..]
  }

  /** `p.replace(/\\/g, '/')` */
  function ForwardSlashes(s: string): (r: string)
    ensures |r| == |s| && forall i :: 0 <= i < |s| ==> r[i] == (if s[i] == '\\' then '/' else s[i])
  {
    seq(|s|, i requires 0 <= i < |s| => if s[i] == '\\' then '/' else s[i])
  }

  /** getRelativeHref, applied to the output of path.relative: forward slashes, and a `./`
      prefix unless the path already starts with `../`, `/` or `./`. */
  function RelativeHref(rel: string): (r: string)
    ensures Lacks(r, '\\') && |r| >= 1
    ensures StartsWith(r, "../") || StartsWith(r, "/") || StartsWith(r, "./")
    ensures r == ForwardSlashes(rel) || r == "./" + ForwardSlashes(rel)
  {
    var p := ForwardSlashes(rel);
    if !StartsWith(p, "../") && !StartsWith(p, "/") && !StartsWith(p, "./") then "./" + p else p
  }

  /** getRelativeHref(targetPath, fromFile) */
  function GetRelativeHref(target: Path, fromFile: Path): string {
    RelativeHref(Join(Relative(Dir(fromFile), target)))
  }

  lemma SplitDotSlash(x: string)
    ensures Split("./" + x) == ["."] + Split(x)
  {
    var s := "./" + x;
    assert s[0] == '.' && s[1] == '/';
    assert SlashIndex(s) == 1;
    assert s[..1] == "." && s[2..] == x;
  }

  /** The segments path.relative produces are plain names and `..`. */
  lemma RelativeSegments(fromDir: Path, to: Path)
    requires PlainPath(to)
    ensures var segs := Relative(fromDir, to);
      forall i :: 0 <= i < |segs| ==> segs[i] != "" && Lacks(segs[i], '/') && Lacks(segs[i], '\\')
  {
    var c := CommonPrefix(fromDir, to);
    var segs := Relative(fromDir, to);
    forall i | 0 <= i < |segs| ensures segs[i] != "" && Lacks(segs[i], '/') && Lacks(segs[i], '\\') {
      if i >= |fromDir| - c {
        assert segs[i] == to[c + i - (|fromDir| - c)];
      } else {
        assert segs[i] == "..";
      }
    }
  }

  /** Applying the segments of path.relative(from, to) to from gives to. */
  lemma NormalizeRelative(fromDir: Path, to: Path)
    requires PlainPath(to)
    ensures Normalize(fromDir, Relative(fromDir, to)) == to
  {
    var c := CommonPrefix(fromDir, to);
    NormalizeAppend(fromDir, Ups(|fromDir| - c), to[c..]);
    NormalizeUps(fromDir, |fromDir| - c);
    assert PlainPath(to[c..]) by {
      forall i | 0 <= i < |to[c..]| ensures PlainName(to[c..][i]) { assert to[c..][i] == to[c + i]; }
    }
    NormalizeNames(fromDir[..c], to[c..]);
    assert fromDir[..c] == to[..c];
    assert to[..c] + to[c..] == to;
  }

  /** Without backslashes and without a leading slash, getRelativeHref either keeps a path
      that starts with a dot or puts `./` in front of it. */
  lemma RelativeHrefCases(x: string)
    requires Lacks(x, '\\') && (x == "" || x[0] != '/')
    ensures RelativeHref(x) == "./" + x || (RelativeHref(x) == x && x[0] == '.')
  {
    assert ForwardSlashes(x) == x;
    if StartsWith(x, "../") {
      assert x[0] == "../"[0];
    } else if StartsWith(x, "./") {
      assert x[0] == "./"[0];
    }
  }

  /** The href built from segments splits back into them, possibly behind a `.` (and with an
      empty segment when there are none); both are skipped when resolving. */
  lemma SplitRelativeHref(segs: seq<string>)
    requires forall i :: 0 <= i < |segs| ==> segs[i] != "" && Lacks(segs[i], '/') && Lacks(segs[i], '\\')
    ensures RelativeHref(Join(segs))[0] == '.'
    ensures var sp := Split(RelativeHref(Join(segs)));
      sp == segs || sp == ["."] + segs || (segs == [] && sp == [".", ""])
  {
    var x := Join(segs);
    JoinNoBackslash(segs);
    if segs != [] {
      JoinFirst(segs);
      SplitJoin(segs);
    }
    RelativeHrefCases(x);
    SplitDotSlash(x);
  }

  lemma NormalizeSkipsDot(base: Path, segs: seq<string>)
    ensures Normalize(base, ["."] + segs) == Normalize(base, segs)
  {
    assert (["."] + segs)[1..] == segs;
  }

  /** The href getRelativeHref produces leads back to the target when it is resolved from
      the directory of the file it was computed for. */
  lemma RelativeHrefResolves(fromDir: Path, to: Path)
    requires PlainPath(to)
    ensures RelativeHref(Join(Relative(fromDir, to)))[0] == '.'
    ensures Normalize(fromDir, Split(RelativeHref(Join(Relative(fromDir, to))))) == to
  {
    var segs := Relative(fromDir, to);
    RelativeSegments(fromDir, to);
    NormalizeRelative(fromDir, to);
    SplitRelativeHref(segs);
    NormalizeSkipsDot(fromDir, segs);
    if segs == [] {
      assert Normalize(fromDir, [".", ""]) == fromDir;
    }
  }

  /** path.basename(href): the text after the last slash, ignoring trailing slashes. */
  function StripTrailingSlashes(s: string): (r: string)
    ensures r <= s && (r == "" || r[|r| - 1] != '/')
    ensures forall k :: |r| <= k < |s| ==> s[k] == '/'
  {
    if |s| > 0 && s[|s| - 1] == '/' then StripTrailingSlashes(s[..|s| - 1]) else s
  }

  function AfterLastSlash(s: string): (r: string)
    ensures Lacks(r, '/') && |r| <= |s| && r == s[|s| - |r|..]
    ensures |r| == |s| || s[|s| - |r| - 1] == '/'
  {
    if s == "" || s[|s| - 1] == '/' then ""
    else
      var r := AfterLastSlash(s[..|s| - 1]);
      assert s[..|s| - 1][|s| - 1 - |r|..] == s[|s| - 1 - |r|..|s| - 1];
      r + [s[|s| - 1]]
  }

  /** path.basename: the last segment, trailing slashes ignored. */
  function Basename(s: string): (r: string)
    ensures Lacks(r, '/')
    ensures var t := StripTrailingSlashes(s);
      |r| <= |t| && r == t[|t| - |r|..] && (|r| == |t| || t[|t| - |r| - 1] == '/')
  {
    AfterLastSlash(StripTrailingSlashes(s))
  }

  function LastIndexOfChar(s: string, c: char): (i: int)
    ensures -1 <= i < |s|
    ensures i >= 0 ==> s[i] == c && forall j :: i < j < |s| ==> s[j] != c
    ensures i == -1 ==> c !in s
  {
    if s == [] then -1
    else if s[|s| - 1] == c then |s| - 1
    else LastIndexOfChar(s[..|s| - 1], c)
  }

  /** path.parse(base).name: the base name without its extension; a leading dot and the name
      `..` do not start an extension. */
  function Stem(base: string): (r: string)
    ensures r <= base
    ensures r == base || (0 < |r| < |base| && base[|r|] == '.' && forall j :: |r| < j < |base| ==> base[j] != '.')
  {
    var i := LastIndexOfChar(base, '.');
    if i <= 0 || base == ".." then base else base[..i]
  }

  // ---------------------------------------------------------------- links

  /** isInternalLink */
  predicate IsInternalLink(href: string) {
    Truthy(href) && !StartsWith(href, "http://") && !StartsWith(href, "https://")
    && !StartsWith(href, "mailto:") && !StartsWith(href, "tel:") && !StartsWith(href, "//")
  }

  /** resolveRelativePath: None for an anchor; root-relative hrefs are joined to the root,
      other hrefs are resolved from the directory of the file that holds them. */
  function ResolveRelativePath(href: string, currentFile: Path, rootDir: Path): Option<Path> {
    if StartsWith(href, "#") then None
    else if StartsWith(href, "/") then Some(Normalize(rootDir, Split(href[1..])))
    else Some(Normalize(Dir(currentFile), Split(href)))
  }

  /** fs.existsSync: the path is a file or a directory on the way to one. */
  predicate PathExists(files: seq<Path>, p: Path) {
    exists i | 0 <= i < |files| :: p <= files[i]
  }

  /** checkFileExists: a missing path (an anchor link) counts as existing. */
  predicate CheckFileExists(files: seq<Path>, p: Option<Path>) {
    p.None? || PathExists(files, p.value)
  }

  /** The href getRelativeHref writes into a file is an internal link that resolves, from
      that file, back to the target. */
  lemma GetRelativeHrefRoundTrip(target: Path, fromFile: Path, root: Path)
    requires PlainPath(target)
    ensures IsInternalLink(GetRelativeHref(target, fromFile))
    ensures ResolveRelativePath(GetRelativeHref(target, fromFile), fromFile, root) == Some(target)
  {
    var h := GetRelativeHref(target, fromFile);
    RelativeHrefResolves(Dir(fromFile), target);
    assert h[0] == '.';
    NotStartsWithFirstChar(h, "http://");
    NotStartsWithFirstChar(h, "https://");
    NotStartsWithFirstChar(h, "mailto:");
    NotStartsWithFirstChar(h, "tel:");
    NotStartsWithFirstChar(h, "//");
    NotStartsWithFirstChar(h, "#");
    NotStartsWithFirstChar(h, "/");
  }

  /** Fragment links are internal here, unlike absolute, protocol-relative, mail and phone
      links; they are kept in the table but never resolved. */
  lemma InternalLinkScope(rest: string)
    ensures IsInternalLink("#" + rest)
    ensures !IsInternalLink("http://" + rest) && !IsInternalLink("https://" + rest)
    ensures !IsInternalLink("mailto:" + rest) && !IsInternalLink("tel:" + rest) && !IsInternalLink("//" + rest)
  {
    assert ("#" + rest)[0] == '#';
    assert ("http://" + rest)[..7] == "http://";
    assert ("https://" + rest)[..8] == "https://";
    assert ("mailto:" + rest)[..7] == "mailto:";
    assert ("tel:" + rest)[..4] == "tel:";
    assert ("//" + rest)[..2] == "//";
  }

  /** An anchor link is never counted broken. */
  lemma AnchorNeverBroken(files: seq<Path>, href: string, file: Path, root: Path)
    requires StartsWith(href, "#")
    ensures CheckFileExists(files, ResolveRelativePath(href, file, root))
  {
  }

  // ---------------------------------------------------------------- escapeRegex

  const RegexSpecials: string := ".*+?^${}()|[]\\"

  /** escapeRegex: a backslash before every character that is special in a pattern. */
  function EscapeRegex(s: string): (r: string)
    ensures |r| >= |s|
    ensures (forall i :: 0 <= i < |s| ==> s[i] !in RegexSpecials) ==> r == s
  {
    if s == "" then ""
    else (if s[0] in RegexSpecials then ['\\', s[0]] else [s[0]]) + EscapeRegex(s[1..])
  }

  /** What a pattern made of escaped characters matches literally. */
  function Unescape(r: string): string
    decreases |r|
  {
    if r == "" then ""
    else if r[0] == '\\' && |r| >= 2 then [r[1]] + Unescape(r[2..])
    else [r[0]] + Unescape(r[1..])
  }

  /** A pattern made only of literal tokens: a backslash followed by a special character, or
      one character that is not special. */
  predicate Escaped(r: string)
    decreases |r|
  {
    r == ""
    || (|r| >= 2 && r[0] == '\\' && r[1] in RegexSpecials && Escaped(r[2..]))
    || (r[0] !in RegexSpecials && Escaped(r[1..]))
  }

  /** The escaped pattern consists of literal tokens only (so every special character in it
      is preceded by a backslash), and those tokens stand for the original string. */
  lemma {:induction false} EscapeRegexRoundTrip(s: string)
    ensures Escaped(EscapeRegex(s))
    ensures Unescape(EscapeRegex(s)) == s
  {
    if s != "" {
      EscapeRegexRoundTrip(s[1..]);
      var r := EscapeRegex(s);
      if s[0] in RegexSpecials {
        assert r[0] == '\\' && r[1] == s[0] && r[2..] == EscapeRegex(s[1..]);
      } else {
        assert r[0] == s[0] && r[1..] == EscapeRegex(s[1..]);
      }
      assert s == [s[0]] + s[1..];
    }
  }

  /** The escaped string is the only pattern of literal tokens that stands for s: an escaper
      that left a special character bare, or escaped an ordinary one, would differ from it. */
  lemma {:induction false} EscapedUnique(r: string, s: string)
    requires Escaped(r) && Unescape(r) == s
    ensures r == EscapeRegex(s)
    decreases |r|
  {
    if r != "" {
      if r[0] == '\\' {
        assert '\\' in RegexSpecials;
        assert |r| >= 2 && r[1] in RegexSpecials && Escaped(r[2..]);
        EscapedUnique(r[2..], s[1..]);
        assert r == ['\\', r[1]] + r[2..];
      } else {
        EscapedUnique(r[1..], s[1..]);
        assert r == [r[0]] + r[1..];
      }
    }
  }

  // ---------------------------------------------------------------- the href scanner

  predicate IsQuote(c: char) { c == '"' || c == '\'' }

  /** The end of the run of JavaScript white space starting at p. */
  function SkipSpaces(c: string, p: nat): (q: nat)
    requires p <= |c|
    ensures p <= q <= |c| && (q == |c| || !IsJsSpace(c[q]))
    ensures forall k :: p <= k < q ==> IsJsSpace(c[k])
    decreases |c| - p
  {
    if p < |c| && IsJsSpace(c[p]) then SkipSpaces(c, p + 1) else p
  }

  /** The end of the run of non-quote characters starting at p. */
  function SkipNonQuotes(c: string, p: nat): (q: nat)
    requires p <= |c|
    ensures p <= q <= |c| && (q == |c| || IsQuote(c[q]))
    ensures forall k :: p <= k < q ==> !IsQuote(c[k])
    decreases |c| - p
  {
    if p < |c| && !IsQuote(c[p]) then SkipNonQuotes(c, p + 1) else p
  }

  /** A match of `/href\s*=\s*["']([^"']+)["']/i` starting exactly at p: the captured href and
      the index just past the match. */
  function MatchAt(c: string, p: nat): (m: Option<(string, nat)>)
    requires p <= |c|
    ensures m.Some? ==> p < m.value.1 <= |c| && m.value.0 != []
    ensures m.Some? ==> forall k :: 0 <= k < |m.value.0| ==> !IsQuote(m.value.0[k])
  {
    if p + 4 <= |c| && ToLower(c[p..p + 4]) == "href" then
      var q := SkipSpaces(c, p + 4);
      if q < |c| && c[q] == '=' then
        var q2 := SkipSpaces(c, q + 1);
        if q2 < |c| && IsQuote(c[q2]) then
          var e := SkipNonQuotes(c, q2 + 1);
          if q2 + 1 < e < |c| then Some((c[q2 + 1..e], e + 1)) else None
        else None
      else None
    else None
  }

  datatype Match = Match(href: string, index: nat)

  /** All matches of the global regex from position p on: each search resumes where the
      previous match ended. */
  function Scan(c: string, p: nat): (ms: seq<Match>)
    requires p <= |c|
    ensures forall i :: 0 <= i < |ms| ==> p <= ms[i].index < |c| && ms[i].href != ""
    ensures forall i, j :: 0 <= i < j < |ms| ==> ms[i].index < ms[j].index
    decreases |c| - p
  {
    if p == |c| then []
    else
      match MatchAt(c, p)
      case Some((h, e)) => [Match(h, p)] + Scan(c, e)
      case None => Scan(c, p + 1)
  }

  /** One step of the regex loop: a match at p is the first of the matches from p on, and
      no match at p leaves the search to resume one position later. */
  lemma ScanAdvances(done: seq<Match>, c: string, p: nat)
    requires p < |c|
    ensures MatchAt(c, p).None? ==> done + Scan(c, p) == done + Scan(c, p + 1)
    ensures MatchAt(c, p).Some? ==>
      var m := Match(MatchAt(c, p).value.0, p);
      (done + [m])[..|done|] == done
      && done + Scan(c, p) == (done + [m]) + Scan(c, MatchAt(c, p).value.1)
  {
  }

  // ---------------------------------------------------------------- the link table

  datatype Usage = Usage(file: Path, position: nat)

  datatype LinkInfo = LinkInfo(originalHref: string, resolvedPath: Option<Path>,
                               usedIn: seq<Usage>, fileExists: bool)

  /** linkMap with its insertion order (a JavaScript Map iterates in insertion order). */
  datatype Table = Table(linkMap: map<string, LinkInfo>, order: seq<string>)

  ghost predicate TableValid(t: Table) {
    (forall i, j :: 0 <= i < j < |t.order| ==> t.order[i] != t.order[j])
    && (forall h :: h in t.linkMap <==> h in t.order)
    && (forall h :: h in t.linkMap ==> t.linkMap[h].originalHref == h && |t.linkMap[h].usedIn| > 0)
  }

  /** One iteration of analyzeFileLinks's loop. */
  function Record(t: Table, m: Match, file: Path, root: Path, files: seq<Path>): Table {
    if !IsInternalLink(m.href) then t
    else
      var resolved := ResolveRelativePath(m.href, file, root);
      var t1 := if m.href in t.linkMap then t
                else Table(t.linkMap[m.href := LinkInfo(m.href, resolved, [],
                                                        CheckFileExists(files, resolved))],
                           t.order + [m.href]);
      var info := t1.linkMap[m.href];
      Table(t1.linkMap[m.href := info.(usedIn := info.usedIn + [Usage(file, m.index)])], t1.order)
  }

  function RecordAll(t: Table, ms: seq<Match>, file: Path, root: Path, files: seq<Path>): Table
    decreases |ms|
  {
    if ms == [] then t
    else Record(RecordAll(t, ms[..|ms| - 1], file, root, files), ms[|ms| - 1], file, root, files)
  }

  /** The number of matches whose href is h. */
  function Occurrences(ms: seq<Match>, h: string): nat {
    if ms == [] then 0
    else Occurrences(ms[..|ms| - 1], h) + (if ms[|ms| - 1].href == h then 1 else 0)
  }

  /** Recording one match: the table stays well-formed, an internal href gets an entry (made
      on first sight, with its target resolved from this file) and one more usage; nothing
      else changes. */
  lemma RecordSpec(t: Table, m: Match, file: Path, root: Path, files: seq<Path>)
    requires TableValid(t)
    ensures var t' := Record(t, m, file, root, files);
      TableValid(t')
      && (forall h :: h in t'.linkMap <==> h in t.linkMap || (h == m.href && IsInternalLink(h)))
      && (forall h :: h in t.linkMap && h != m.href ==> t'.linkMap[h] == t.linkMap[h])
      && (m.href in t.linkMap && IsInternalLink(m.href) ==>
            t'.linkMap[m.href] == t.linkMap[m.href].(usedIn := t.linkMap[m.href].usedIn + [Usage(file, m.index)]))
      && (m.href !in t.linkMap && IsInternalLink(m.href) ==>
            var resolved := ResolveRelativePath(m.href, file, root);
            t'.linkMap[m.href] == LinkInfo(m.href, resolved, [Usage(file, m.index)], CheckFileExists(files, resolved))
            && t'.order == t.order + [m.href])
      && (m.href in t.linkMap || !IsInternalLink(m.href) ==> t'.order == t.order)
  {
  }

  /** Recording a file's matches keeps the table well-formed. */
  lemma {:induction false} RecordAllValid(t: Table, ms: seq<Match>, file: Path, root: Path, files: seq<Path>)
    requires TableValid(t)
    ensures TableValid(RecordAll(t, ms, file, root, files))
    decreases |ms|
  {
    if ms != [] {
      RecordAllValid(t, ms[..|ms| - 1], file, root, files);
      RecordSpec(RecordAll(t, ms[..|ms| - 1], file, root, files), ms[|ms| - 1], file, root, files);
    }
  }

  /** What recording a file's matches does to the entry of one href h. */
  lemma {:induction false} RecordAllAt(t: Table, ms: seq<Match>, file: Path, root: Path, files: seq<Path>, h: string)
    requires TableValid(t)
    ensures var t' := RecordAll(t, ms, file, root, files);
      (h in t'.linkMap <==> h in t.linkMap || (IsInternalLink(h) && Occurrences(ms, h) > 0))
      && (h in t'.linkMap && IsInternalLink(h) ==>
            |t'.linkMap[h].usedIn| == (if h in t.linkMap then |t.linkMap[h].usedIn| else 0) + Occurrences(ms, h))
      && (h in t.linkMap && Occurrences(ms, h) == 0 ==> t'.linkMap[h] == t.linkMap[h])
    decreases |ms|
  {
    if ms != [] {
      var init := ms[..|ms| - 1];
      RecordAllValid(t, init, file, root, files);
      RecordAllAt(t, init, file, root, files, h);
      RecordSpec(RecordAll(t, init, file, root, files), ms[|ms| - 1], file, root, files);
    }
  }

  /** After a whole file: every internal href has an entry, every occurrence of it added one
      usage, and entries of hrefs not in the file are untouched. */
  lemma RecordAllSpec(t: Table, ms: seq<Match>, file: Path, root: Path, files: seq<Path>)
    requires TableValid(t)
    ensures var t' := RecordAll(t, ms, file, root, files);
      TableValid(t')
      && (forall h :: h in t'.linkMap <==> h in t.linkMap || (IsInternalLink(h) && Occurrences(ms, h) > 0))
      && (forall h :: h in t'.linkMap && IsInternalLink(h) ==>
            |t'.linkMap[h].usedIn| == (if h in t.linkMap then |t.linkMap[h].usedIn| else 0) + Occurrences(ms, h))
      && (forall h :: h in t.linkMap && Occurrences(ms, h) == 0 ==> t'.linkMap[h] == t.linkMap[h])
  {
    RecordAllValid(t, ms, file, root, files);
    forall h {
      RecordAllAt(t, ms, file, root, files, h);
    }
  }

  /** Entries in the table only ever gain usages: their resolved target and existence flag are
      those computed when the href was first seen. */
  lemma {:induction false} RecordAllKeepsFirstSight(t: Table, ms: seq<Match>, file: Path, root: Path,
                                                    files: seq<Path>, h: string)
    requires TableValid(t) && h in t.linkMap
    ensures var t' := RecordAll(t, ms, file, root, files);
      h in t'.linkMap && t'.linkMap[h].resolvedPath == t.linkMap[h].resolvedPath
      && t'.linkMap[h].fileExists == t.linkMap[h].fileExists
      && t.linkMap[h].usedIn <= t'.linkMap[h].usedIn
    decreases |ms|
  {
    if ms != [] {
      RecordAllKeepsFirstSight(t, ms[..|ms| - 1], file, root, files, h);
      RecordAllSpec(t, ms[..|ms| - 1], file, root, files);
      RecordSpec(RecordAll(t, ms[..|ms| - 1], file, root, files), ms[|ms| - 1], file, root, files);
    }
  }

  // ---------------------------------------------------------------- finding a replacement

  const CommonFixes: map<string, string> := map[
    "contact.html" := "contacts.html",
    "contac.html" := "contacts.html",
    "aboutus.html" := "about.html",
    "home.html" := "index.html"]

  function LastName(p: Path): string { if |p| == 0 then "" else p[|p| - 1] }

  /** findFileInDirectory(rootDir, name): the first file of the walk with that name, compared
      case-insensitively. */
  function FindFile(files: seq<Path>, name: string): (r: Option<Path>)
    ensures r.Some? ==> r.value in files && ToLower(LastName(r.value)) == ToLower(name)
    decreases |files|
  {
    if files == [] then None
    else if ToLower(LastName(files[0])) == ToLower(name) then Some(files[0])
    else FindFile(files[1..], name)
  }

  /** The search fails only when no file of the walk has the name. */
  lemma {:induction false} FindFileMisses(files: seq<Path>, name: string)
    requires FindFile(files, name).None?
    ensures forall i :: 0 <= i < |files| ==> ToLower(LastName(files[i])) != ToLower(name)
    decreases |files|
  {
    if files != [] {
      FindFileMisses(files[1..], name);
      assert forall i :: 1 <= i < |files| ==> files[i] == files[1..][i - 1];
    }
  }

  /** Name containment in either direction, after lower-casing. */
  predicate Similar(f: Path, baseName: string) {
    var n := ToLower(Stem(LastName(f)));
    var t := ToLower(baseName);
    Includes(n, t) || Includes(t, n)
  }

  /** findSimilarFiles(baseName)[0]: the first HTML file of the walk whose name is similar. */
  function FirstSimilarFile(files: seq<Path>, baseName: string): (r: Option<Path>)
    ensures r.Some? ==> r.value in files && EndsWith(LastName(r.value), ".html") && Similar(r.value, baseName)
    decreases |files|
  {
    if files == [] then None
    else if EndsWith(LastName(files[0]), ".html") && Similar(files[0], baseName) then Some(files[0])
    else FirstSimilarFile(files[1..], baseName)
  }

  /** The search fails only when no HTML file of the walk has a similar name. */
  lemma {:induction false} FirstSimilarMisses(files: seq<Path>, baseName: string)
    requires FirstSimilarFile(files, baseName).None?
    ensures forall i :: 0 <= i < |files| ==> !(EndsWith(LastName(files[i]), ".html") && Similar(files[i], baseName))
    decreases |files|
  {
    if files != [] {
      FirstSimilarMisses(files[1..], baseName);
      assert forall i :: 1 <= i < |files| ==> files[i] == files[1..][i - 1];
    }
  }

  /** The k-th strategy of findCorrectLink for a link to fileName: the same name anywhere
      under the root, a similar HTML file, the common-fixes table, the name with `.html`
      appended. */
  function Strategy(files: seq<Path>, fileName: string, k: nat): (r: Option<Path>)
    requires k < 4
    ensures r.Some? ==> r.value in files
  {
    if k == 0 then FindFile(files, fileName)
    else if k == 1 then FirstSimilarFile(files, Stem(fileName))
    else if k == 2 then (if fileName in CommonFixes then FindFile(files, CommonFixes[fileName]) else None)
    else if '.' !in fileName then FindFile(files, fileName + ".html")
    else None
  }

  /** The result of the first strategy from the k-th on that finds a file. */
  function FirstStrategy(files: seq<Path>, fileName: string, k: nat): (r: Option<Path>)
    requires k <= 4
    ensures r.Some? ==> r.value in files
    decreases 4 - k
  {
    if k == 4 then None
    else
      var r := Strategy(files, fileName, k);
      if r.Some? then r else FirstStrategy(files, fileName, k + 1)
  }

  /** The target file findCorrectLink settles on. */
  function FindTarget(files: seq<Path>, href: string): (r: Option<Path>)
    ensures r.Some? ==> r.value in files
  {
    FirstStrategy(files, Basename(href), 0)
  }


  /** findCorrectLink: the replacement href, relative to the first file that uses the link. */
  function FindCorrectLink(files: seq<Path>, href: string, info: LinkInfo): (r: Option<string>)
    requires |info.usedIn| > 0
    ensures r.Some? <==> FindTarget(files, href).Some?
  {
    var target := FindTarget(files, href);
    if target.Some? then Some(GetRelativeHref(target.value, info.usedIn[0].file)) else None
  }

  /** Whether findCorrectLink finds a replacement depends only on the target search. */
  lemma FoundIffTarget(files: seq<Path>, href: string, info: LinkInfo, fix: Option<string>)
    requires |info.usedIn| > 0 && fix == FindCorrectLink(files, href, info)
    ensures fix.Some? <==> FindTarget(files, href).Some?
  {
  }

  /** A broken entry is repairable exactly when findCorrectLink returns a replacement for it. */
  lemma RepairableIffFound(t: Table, href: string, files: seq<Path>, fixedHref: Option<string>)
    requires href in t.linkMap && !t.linkMap[href].fileExists && |t.linkMap[href].usedIn| > 0
    requires fixedHref == FindCorrectLink(files, href, t.linkMap[href])
    ensures Broken(t, href)
    ensures Repairable(t, href, files) <==> fixedHref.Some?
  {
    FoundIffTarget(files, href, t.linkMap[href], fixedHref);
  }

  /** An href starting with a dot is resolved from the directory of its file. */
  lemma ResolveDotHref(href: string, file: Path, root: Path)
    requires |href| >= 1 && href[0] == '.'
    ensures ResolveRelativePath(href, file, root) == Some(Normalize(Dir(file), Split(href)))
  {
    assert !StartsWith(href, "#") && !StartsWith(href, "/");
  }

  /** A replacement, resolved from the first file that uses the link, names an existing file. */
  lemma FindCorrectLinkResolves(files: seq<Path>, href: string, info: LinkInfo, root: Path)
    requires |info.usedIn| > 0
    requires forall i :: 0 <= i < |files| ==> PlainPath(files[i])
    requires FindCorrectLink(files, href, info).Some?
    ensures var fix := FindCorrectLink(files, href, info).value;
      var resolved := ResolveRelativePath(fix, info.usedIn[0].file, root);
      resolved.Some? && resolved.value in files
  {
    var target := FindTarget(files, href).value;
    var file := info.usedIn[0].file;
    var fix := GetRelativeHref(target, file);
    assert FindCorrectLink(files, href, info).value == fix;
    var k :| 0 <= k < |files| && files[k] == target;
    RelativeHrefResolves(Dir(file), target);
    ResolveDotHref(fix, file, root);
  }

  /** The href applyLinkFix writes into each file that uses the link: the one computed for the
      first file, whatever directory the file is in. */
  function AppliedHrefs(files: seq<Path>, href: string, info: LinkInfo): (r: seq<string>)
    requires |info.usedIn| > 0 && FindTarget(files, href).Some?
    ensures |r| == |info.usedIn| && forall i :: 0 <= i < |r| ==> r[i] == r[0]
  {
    var fix := FindCorrectLink(files, href, info).value;
    seq(|info.usedIn|, i => fix)
  }

  /** A replacement for every file that uses the link, each relative to that file. */
  function CorrectedHrefs(files: seq<Path>, href: string, info: LinkInfo): (r: seq<string>)
    requires FindTarget(files, href).Some?
    ensures |r| == |info.usedIn|
  {
    var target := FindTarget(files, href).value;
    seq(|info.usedIn|, i requires 0 <= i < |info.usedIn| => GetRelativeHref(target, info.usedIn[i].file))
  }

  /** Every corrected href resolves, from its own file, to the chosen target. */
  lemma CorrectedHrefsResolve(files: seq<Path>, href: string, info: LinkInfo, root: Path, i: nat)
    requires FindTarget(files, href).Some? && i < |info.usedIn|
    requires forall k :: 0 <= k < |files| ==> PlainPath(files[k])
    ensures var r := ResolveRelativePath(CorrectedHrefs(files, href, info)[i], info.usedIn[i].file, root);
      r == Some(FindTarget(files, href).value)
  {
    var target := FindTarget(files, href).value;
    var file := info.usedIn[i].file;
    var fix := GetRelativeHref(target, file);
    assert CorrectedHrefs(files, href, info)[i] == fix;
    var k :| 0 <= k < |files| && files[k] == target;
    RelativeHrefResolves(Dir(file), target);
    ResolveDotHref(fix, file, root);
  }

  /** The site files of the example below. */
  const ExampleFiles: seq<Path> := [["s", "contacts.html"], ["s", "index.html"], ["s", "sub", "b.html"]]

  lemma ToLowerNoUpper(s: string)
    requires forall i :: 0 <= i < |s| ==> !('A' <= s[i] <= 'Z')
    ensures ToLower(s) == s
  {
  }

  lemma ExampleBasename()
    ensures Basename("contact.html") == "contact.html"
  {
    var x := "contact.html";
    assert x[|x| - 1] != '/';
    assert StripTrailingSlashes(x) == x;
    assert Lacks(x, '/');
    AfterLastSlashPlain(x);
  }

  lemma ExampleStems()
    ensures Stem("contact.html") == "contact" && Stem("contacts.html") == "contacts"
  {
    var x := "contact.html";
    assert x[7] == '.' && forall j :: 7 < j < |x| ==> x[j] != '.';
    assert LastIndexOfChar(x, '.') == 7;
    var y := "contacts.html";
    assert y[8] == '.' && forall j :: 8 < j < |y| ==> y[j] != '.';
    assert LastIndexOfChar(y, '.') == 8;
  }

  lemma ExampleNames()
    ensures Basename("contact.html") == "contact.html"
    ensures Stem("contact.html") == "contact" && Stem("contacts.html") == "contacts"
    ensures ToLower("contact.html") == "contact.html" && ToLower("contacts.html") == "contacts.html"
    ensures ToLower("index.html") == "index.html" && ToLower("b.html") == "b.html"
    ensures ToLower("contact") == "contact" && ToLower("contacts") == "contacts"
  {
    ExampleBasename();
    ExampleStems();
    ToLowerNoUpper("contact.html");
    ToLowerNoUpper("contacts.html");
    ToLowerNoUpper("index.html");
    ToLowerNoUpper("b.html");
    ToLowerNoUpper("contact");
    ToLowerNoUpper("contacts");
  }

  lemma ExampleTarget()
    ensures FindTarget(ExampleFiles, "contact.html") == Some(["s", "contacts.html"])
  {
    var files := ExampleFiles;
    ExampleNames();
    assert forall i :: 0 <= i < |files| ==> ToLower(LastName(files[i])) != ToLower("contact.html");
    assert FindFile(files, "contact.html") == None;
    assert Similar(files[0], "contact") by {
      assert OccursAt("contacts", "contact", 0);
    }
    assert EndsWith(LastName(files[0]), ".html");
    assert FirstSimilarFile(files, "contact") == Some(["s", "contacts.html"]);
    assert Strategy(files, "contact.html", 0) == None;
    assert Strategy(files, "contact.html", 1) == Some(["s", "contacts.html"]);
    assert FirstStrategy(files, "contact.html", 1) == Some(["s", "contacts.html"]);
  }

  /** A plain relative name gets the `./` prefix. */
  lemma RelativeHrefOfName(x: string)
    requires x != [] && x[0] != '.' && x[0] != '/' && Lacks(x, '\\')
    ensures RelativeHref(x) == "./" + x
  {
    assert ForwardSlashes(x) == x;
    assert !StartsWith(x, "../") && !StartsWith(x, "/") && !StartsWith(x, "./");
  }

  lemma ExampleRelative()
    ensures Relative(Dir(["s", "index.html"]), ["s", "contacts.html"]) == ["contacts.html"]
  {
    assert Dir(["s", "index.html"]) == ["s"];
    assert CommonPrefix(["s"], ["s", "contacts.html"]) == 1;
    assert Ups(0) == [];
  }

  lemma ExampleHref()
    ensures GetRelativeHref(["s", "contacts.html"], ["s", "index.html"]) == "./contacts.html"
  {
    ExampleRelative();
    var x := "contacts.html";
    var rel := Relative(Dir(["s", "index.html"]), ["s", "contacts.html"]);
    assert Join(rel) == x;
    assert x[0] == 'c' && Lacks(x, '\\');
    RelativeHrefOfName(x);
    assert "./" + x == "./contacts.html";
  }



  lemma SplitPlain(s: string)
    requires Lacks(s, '/')
    ensures Split(s) == [s]
  {
    assert '/' !in s;
  }

  lemma SplitDotSlashPlain(x: string)
    requires Lacks(x, '/')
    ensures Split("./" + x) == [".", x]
  {
    SplitDotSlash(x);
    SplitPlain(x);
  }

  /** `./name` resolves to name in the file's own directory. */
  lemma ResolveDotSlashName(x: string, file: Path, root: Path)
    requires PlainName(x)
    ensures ResolveRelativePath("./" + x, file, root) == Some(Dir(file) + [x])
  {
    ResolveDotHref("./" + x, file, root);
    SplitDotSlashPlain(x);
    var d := Dir(file);
    assert [".", x][1..] == [x] && [x][1..] == [];
    assert StepInto(d, ".") == d && StepInto(d, x) == d + [x];
    assert Normalize(d, [x]) == d + [x];
    assert Normalize(d, [".", x]) == d + [x];
  }

  lemma ExampleResolvedPath()
    ensures ResolveRelativePath("./contacts.html", ["s", "sub", "b.html"], ["s"]) == Some(["s", "sub", "contacts.html"])
  {
    var x := "contacts.html";
    assert Lacks(x, '/') && Lacks(x, '\\');
    ResolveDotSlashName(x, ["s", "sub", "b.html"], ["s"]);
    assert "./" + x == "./contacts.html";
    assert Dir(["s", "sub", "b.html"]) + [x] == ["s", "sub", "contacts.html"];
  }

  lemma ExampleMissingPath()
    ensures !PathExists(ExampleFiles, ["s", "sub", "contacts.html"])
  {
    var p := ["s", "sub", "contacts.html"];
    assert !(p <= ExampleFiles[0]) && !(p <= ExampleFiles[1]) by {
      assert |ExampleFiles[0]| < |p| && |ExampleFiles[1]| < |p|;
    }
    assert !(p <= ExampleFiles[2]) by {
      assert p[2] != ExampleFiles[2][2];
    }
  }

  lemma ExampleResolution()
    ensures ResolveRelativePath("./contacts.html", ["s", "sub", "b.html"], ["s"]) == Some(["s", "sub", "contacts.html"])
    ensures !PathExists(ExampleFiles, ["s", "sub", "contacts.html"])
  {
    ExampleResolvedPath();
    ExampleMissingPath();
  }


  /** A broken `contact.html` used by `/s/index.html` and by `/s/sub/b.html`, with
      `/s/contacts.html` present: the href written into `/s/sub/b.html` is `./contacts.html`,
      which resolves to the missing `/s/sub/contacts.html`. */
  lemma AppliedHrefBreaksInSubdirectory()
    ensures var info := LinkInfo("contact.html", Some(["s", "contact.html"]),
                                 [Usage(["s", "index.html"], 0), Usage(["s", "sub", "b.html"], 0)], false);
      FindTarget(ExampleFiles, "contact.html") == Some(["s", "contacts.html"])
      && AppliedHrefs(ExampleFiles, "contact.html", info)[1] == "./contacts.html"
      && ResolveRelativePath("./contacts.html", ["s", "sub", "b.html"], ["s"]) == Some(["s", "sub", "contacts.html"])
      && !PathExists(ExampleFiles, ["s", "sub", "contacts.html"])
  {
    ExampleTarget();
    ExampleHref();
    ExampleResolution();
  }

  lemma {:induction false} AfterLastSlashPlain(s: string)
    requires Lacks(s, '/')
    ensures AfterLastSlash(s) == s
    decreases |s|
  {
    if s != "" {
      var init := s[..|s| - 1];
      assert Lacks(init, '/') && s[|s| - 1] != '/';
      AfterLastSlashPlain(init);
      assert init + [s[|s| - 1]] == s;
    }
  }

  // ---------------------------------------------------------------- statistics

  /** An entry whose target does not exist. */
  predicate Broken(t: Table, h: string) {
    h in t.linkMap && !t.linkMap[h].fileExists
  }

  /** The number of broken entries among hs. */
  function BrokenCount(t: Table, hs: seq<string>): nat {
    if hs == [] then 0
    else BrokenCount(t, hs[..|hs| - 1]) + (if Broken(t, hs[|hs| - 1]) then 1 else 0)
  }

  /** A broken entry for which a replacement is found. */
  predicate Repairable(t: Table, h: string, files: seq<Path>) {
    Broken(t, h) && FindTarget(files, h).Some?
  }

  /** The number of repairable entries among hs. */
  function FixableCount(t: Table, hs: seq<string>, files: seq<Path>): (n: nat)
    ensures n <= BrokenCount(t, hs)
  {
    if hs == [] then 0
    else FixableCount(t, hs[..|hs| - 1], files) + (if Repairable(t, hs[|hs| - 1], files) then 1 else 0)
  }

  /** The repairable entries among hs. */
  function FixedSet(t: Table, hs: seq<string>, files: seq<Path>): set<string> {
    if hs == [] then {}
    else FixedSet(t, hs[..|hs| - 1], files) + (if Repairable(t, hs[|hs| - 1], files) then {hs[|hs| - 1]} else {})
  }

  lemma {:induction false} FixedSetMembers(t: Table, hs: seq<string>, files: seq<Path>, h: string)
    ensures h in FixedSet(t, hs, files) <==> h in hs && Repairable(t, h, files)
  {
    if hs != [] {
      FixedSetMembers(t, hs[..|hs| - 1], files, h);
      assert hs == hs[..|hs| - 1] + [hs[|hs| - 1]];
    }
  }

  lemma FixedSetRepairable(t: Table, hs: seq<string>, files: seq<Path>)
    ensures forall h :: h in FixedSet(t, hs, files) ==> Repairable(t, h, files)
  {
    forall h | h in FixedSet(t, hs, files) ensures Repairable(t, h, files) {
      FixedSetMembers(t, hs, files, h);
    }
  }

  /** One more href extends the three statistics by that href alone. */
  lemma StatisticsSnoc(t: Table, hs: seq<string>, h: string, files: seq<Path>)
    ensures BrokenCount(t, hs + [h]) == BrokenCount(t, hs) + (if Broken(t, h) then 1 else 0)
    ensures FixableCount(t, hs + [h], files) == FixableCount(t, hs, files) + (if Repairable(t, h, files) then 1 else 0)
    ensures FixedSet(t, hs + [h], files) == FixedSet(t, hs, files) + (if Repairable(t, h, files) then {h} else {})
  {
    assert (hs + [h])[..|hs|] == hs;
  }

  /** The report's list of links left broken. */
  function Unfixed(t: Table, fixedLinks: set<string>): (r: seq<string>) {
    Filter(t, t.order, fixedLinks)
  }

  function Filter(t: Table, hs: seq<string>, fixedLinks: set<string>): (r: seq<string>)
    ensures forall h :: h in r <==> h in hs && Broken(t, h) && h !in fixedLinks
  {
    if hs == [] then []
    else
      var h := hs[|hs| - 1];
      Filter(t, hs[..|hs| - 1], fixedLinks) + (if Broken(t, h) && h !in fixedLinks then [h] else [])
  }

  // ---------------------------------------------------------------- the fixer

  /** The walk's files whose name ends in `.html`, in walk order. */
  function HtmlOf(fs: seq<Path>): (r: seq<Path>)
    ensures |r| <= |fs|
    ensures forall f :: f in r <==> f in fs && EndsWith(LastName(f), ".html")
  {
    if fs == [] then []
    else
      var last := fs[|fs| - 1];
      assert fs == fs[..|fs| - 1] + [last];
      HtmlOf(fs[..|fs| - 1]) + (if EndsWith(LastName(last), ".html") then [last] else [])
  }

  /** The table after recording the links of each file in turn. */
  function RecordFiles(t: Table, fs: seq<Path>, contents: Path -> string, root: Path, files: seq<Path>): Table
  {
    if fs == [] then t
    else
      var last := fs[|fs| - 1];
      RecordAll(RecordFiles(t, fs[..|fs| - 1], contents, root, files), Scan(contents(last), 0), last, root, files)
  }

  /** The number of href matches in the files. */
  function MatchCount(fs: seq<Path>, contents: Path -> string): nat {
    if fs == [] then 0
    else MatchCount(fs[..|fs| - 1], contents) + |Scan(contents(fs[|fs| - 1]), 0)|
  }

  /** One more file extends both the table and the match count by that file alone. */
  lemma FilesSnoc(t: Table, fs: seq<Path>, i: nat, contents: Path -> string, root: Path, files: seq<Path>)
    requires i < |fs|
    ensures RecordFiles(t, fs[..i + 1], contents, root, files)
         == RecordAll(RecordFiles(t, fs[..i], contents, root, files), Scan(contents(fs[i]), 0), fs[i], root, files)
    ensures MatchCount(fs[..i + 1], contents) == MatchCount(fs[..i], contents) + |Scan(contents(fs[i]), 0)|
  {
    assert fs[..i + 1][..i] == fs[..i];
  }

  /** Recording whole files keeps the table well-formed and every entry it had. */
  lemma {:induction false} RecordFilesSpec(t: Table, fs: seq<Path>, contents: Path -> string, root: Path, files: seq<Path>)
    requires TableValid(t)
    ensures var t' := RecordFiles(t, fs, contents, root, files);
      TableValid(t') && forall h :: h in t.linkMap ==> h in t'.linkMap
  {
    if fs != [] {
      var last := fs[|fs| - 1];
      var mid := RecordFiles(t, fs[..|fs| - 1], contents, root, files);
      RecordFilesSpec(t, fs[..|fs| - 1], contents, root, files);
      RecordAllSpec(mid, Scan(contents(last), 0), last, root, files);
    }
  }

  class Fixer {
    const rootDir: Path
    /** The regular files under rootDir, in walk order. */
    const files: seq<Path>
    var htmlFiles: seq<Path>
    var linkMap: map<string, LinkInfo>
    var order: seq<string>
    var fixedLinks: set<string>
    var filesProcessed: nat
    var linksChecked: nat
    var linksBroken: nat
    var linksFixed: nat

    ghost predicate Valid()
      reads this`htmlFiles, this`linkMap, this`order
    {
      (forall i :: 0 <= i < |files| ==> rootDir < files[i])
      && TableValid(Table(linkMap, order))
      && (forall i :: 0 <= i < |htmlFiles| ==> |htmlFiles[i]| > 0)
    }

    constructor(rootDir: Path, files: seq<Path>)
      requires forall i :: 0 <= i < |files| ==> rootDir < files[i]
      ensures Valid()
      ensures this.rootDir == rootDir && this.files == files
      ensures htmlFiles == [] && linkMap == map[] && order == [] && fixedLinks == {}
      ensures filesProcessed == 0 && linksChecked == 0 && linksBroken == 0 && linksFixed == 0
    {
      this.rootDir := rootDir;
      this.files := files;
      htmlFiles := [];
      linkMap := map[];
      order := [];
      fixedLinks := {};
      filesProcessed := 0;
      linksChecked := 0;
      linksBroken := 0;
      linksFixed := 0;
    }

    /** scanHtmlFiles: the walk's files whose name ends in `.html`, in walk order. */
    method ScanHtmlFiles()
      requires Valid()
      modifies this`htmlFiles
      ensures Valid()
      ensures htmlFiles == old(htmlFiles) + HtmlOf(files)
      ensures forall f :: f in htmlFiles <==> f in old(htmlFiles) || (f in files && EndsWith(LastName(f), ".html"))
      ensures linkMap == old(linkMap) && order == old(order) && fixedLinks == old(fixedLinks)
      ensures linksChecked == old(linksChecked) && linksBroken == old(linksBroken)
      ensures linksFixed == old(linksFixed) && filesProcessed == old(filesProcessed)
    {
      var i := 0;
      while i < |files|
        invariant 0 <= i <= |files| && Valid()
        invariant htmlFiles == old(htmlFiles) + HtmlOf(files[..i])
      {
        assert files[..i + 1][..i] == files[..i];
        ghost var step := if EndsWith(LastName(files[i]), ".html") then [files[i]] else [];
        assert HtmlOf(files[..i + 1]) == HtmlOf(files[..i]) + step;
        if EndsWith(LastName(files[i]), ".html") {
          assert rootDir < files[i];
          htmlFiles := htmlFiles + [files[i]];
        }
        assert htmlFiles == old(htmlFiles) + (HtmlOf(files[..i]) + step);
        i := i + 1;
      }
      assert files[..|files|] == files;
    }

    /** The body of analyzeFileLinks's loop for one match. */
    method RecordMatch(href: string, position: nat, filePath: Path)
      modifies this`linkMap, this`order, this`linksChecked
      ensures Table(linkMap, order) == Record(Table(old(linkMap), old(order)), Match(href, position), filePath, rootDir, files)
      ensures fixedLinks == old(fixedLinks) && htmlFiles == old(htmlFiles)
      ensures linksChecked == old(linksChecked) + 1
      ensures linksBroken == old(linksBroken) && linksFixed == old(linksFixed)
      ensures filesProcessed == old(filesProcessed)
    {
      linksChecked := linksChecked + 1;
      if IsInternalLink(href) {
        var absolutePath := ResolveRelativePath(href, filePath, rootDir);
        if href !in linkMap {
          linkMap := linkMap[href := LinkInfo(href, absolutePath, [], CheckFileExists(files, absolutePath))];
          order := order + [href];
        }
        var info := linkMap[href];
        linkMap := linkMap[href := info.(usedIn := info.usedIn + [Usage(filePath, position)])];
      }
    }

    /** One pass of the regex loop at `pos`: a match there is recorded and the search
        resumes after it; otherwise the search resumes one position later. */
    method ScanOnce(filePath: Path, content: string, pos: nat, ghost t0: Table, ghost done: seq<Match>)
        returns (next: nat, ghost done': seq<Match>)
      requires pos < |content|
      requires done + Scan(content, pos) == Scan(content, 0)
      requires Table(linkMap, order) == RecordAll(t0, done, filePath, rootDir, files)
      modifies this`linkMap, this`order, this`linksChecked
      ensures pos < next <= |content|
      ensures done' + Scan(content, next) == Scan(content, 0)
      ensures linksChecked + |done| == old(linksChecked) + |done'|
      ensures Table(linkMap, order) == RecordAll(t0, done', filePath, rootDir, files)
    {
      var m := MatchAt(content, pos);
      ScanAdvances(done, content, pos);
      if m.None? {
        next, done' := pos + 1, done;
      } else {
        var (href, after) := m.value;
        RecordMatch(href, pos, filePath);
        next, done' := after, done + [Match(href, pos)];
      }
    }

    /** analyzeFileLinks: the regex loop over one file's content. */
    method AnalyzeFileLinks(filePath: Path, content: string)
      requires Valid()
      modifies this`linkMap, this`order, this`linksChecked
      ensures Valid()
      ensures linksChecked == old(linksChecked) + |Scan(content, 0)|
      ensures Table(linkMap, order)
           == RecordAll(Table(old(linkMap), old(order)), Scan(content, 0), filePath, rootDir, files)
      ensures fixedLinks == old(fixedLinks) && htmlFiles == old(htmlFiles)
      ensures linksBroken == old(linksBroken) && linksFixed == old(linksFixed)
      ensures filesProcessed == old(filesProcessed)
    {
      ghost var t0 := Table(linkMap, order);
      ghost var done: seq<Match> := [];
      var pos := 0;
      while pos < |content|
        invariant pos <= |content|
        invariant done + Scan(content, pos) == Scan(content, 0)
        invariant linksChecked == old(linksChecked) + |done|
        invariant Table(linkMap, order) == RecordAll(t0, done, filePath, rootDir, files)
        decreases |content| - pos
      {
        pos, done := ScanOnce(filePath, content, pos, t0, done);
      }
      assert done == Scan(content, 0);
      RecordAllValid(t0, done, filePath, rootDir, files);
    }

    /** analyzeLinks: every HTML file, in order; its content comes from the oracle. */
    method AnalyzeLinks(contents: Path -> string)
      requires Valid()
      modifies this`linkMap, this`order, this`linksChecked, this`filesProcessed
      ensures Valid()
      ensures filesProcessed == old(filesProcessed) + |htmlFiles|
      ensures linksChecked == old(linksChecked) + MatchCount(htmlFiles, contents)
      ensures Table(linkMap, order) == RecordFiles(Table(old(linkMap), old(order)), htmlFiles, contents, rootDir, files)
      ensures forall h :: h in old(linkMap) ==> h in linkMap
      ensures fixedLinks == old(fixedLinks) && htmlFiles == old(htmlFiles)
      ensures linksBroken == old(linksBroken) && linksFixed == old(linksFixed)
    {
      ghost var t0 := Table(linkMap, order);
      var i := 0;
      while i < |htmlFiles|
        invariant 0 <= i <= |htmlFiles| && Valid()
        invariant filesProcessed == old(filesProcessed) + i
        invariant linksChecked == old(linksChecked) + MatchCount(htmlFiles[..i], contents)
        invariant Table(linkMap, order) == RecordFiles(t0, htmlFiles[..i], contents, rootDir, files)
        invariant fixedLinks == old(fixedLinks) && htmlFiles == old(htmlFiles)
        invariant linksBroken == old(linksBroken) && linksFixed == old(linksFixed)
      {
        FilesSnoc(t0, htmlFiles, i, contents, rootDir, files);
        AnalyzeFileLinks(htmlFiles[i], contents(htmlFiles[i]));
        filesProcessed := filesProcessed + 1;
        i := i + 1;
      }
      assert htmlFiles[..i] == htmlFiles;
      RecordFilesSpec(t0, htmlFiles, contents, rootDir, files);
    }

    /** One iteration of fixBrokenLinks: a broken entry is counted, and marked fixed when a
        replacement is found. */
    method FixEntry(href: string)
      requires href in linkMap && |linkMap[href].usedIn| > 0
      modifies this`linksBroken, this`linksFixed, this`fixedLinks
      ensures linksBroken == old(linksBroken) + (if Broken(Table(linkMap, order), href) then 1 else 0)
      ensures Repairable(Table(linkMap, order), href, files) ==>
        linksFixed == old(linksFixed) + 1 && fixedLinks == old(fixedLinks) + {href}
      ensures !Repairable(Table(linkMap, order), href, files) ==>
        linksFixed == old(linksFixed) && fixedLinks == old(fixedLinks)
    {
      var info := linkMap[href];
      ghost var t := Table(linkMap, order);
      if !info.fileExists {
        linksBroken := linksBroken + 1;
        var fixedHref := FindCorrectLink(files, href, info);
        RepairableIffFound(t, href, files, fixedHref);
        if fixedHref.Some? {
          fixedLinks := fixedLinks + {href};
          linksFixed := linksFixed + 1;
        }
      } else {
        assert !Broken(t, href);
      }
    }

    /** fixBrokenLinks: every broken entry, in insertion order. */
    method FixBrokenLinks()
      requires Valid()
      modifies this`linksBroken, this`linksFixed, this`fixedLinks
      ensures Valid()
      ensures linkMap == old(linkMap) && order == old(order)
      ensures linksBroken == old(linksBroken) + BrokenCount(Table(linkMap, order), order)
      ensures linksFixed == old(linksFixed) + FixableCount(Table(linkMap, order), order, files)
      ensures linksFixed - old(linksFixed) <= linksBroken - old(linksBroken)
      ensures fixedLinks == old(fixedLinks) + FixedSet(Table(linkMap, order), order, files)
      ensures forall h :: h in fixedLinks - old(fixedLinks) ==> Repairable(Table(linkMap, order), h, files)
    {
      ghost var t := Table(linkMap, order);
      var i := 0;
      while i < |order|
        invariant 0 <= i <= |order|
        invariant linksBroken == old(linksBroken) + BrokenCount(t, order[..i])
        invariant linksFixed == old(linksFixed) + FixableCount(t, order[..i], files)
        invariant fixedLinks == old(fixedLinks) + FixedSet(t, order[..i], files)
      {
        assert order[..i + 1] == order[..i] + [order[i]];
        StatisticsSnoc(t, order[..i], order[i], files);
        FixEntry(order[i]);
        i := i + 1;
      }
      assert order[..|order|] == order;
      FixedSetRepairable(t, order, files);
    }

    /** fix(): scan, analyse, repair, and return the report's list of unfixed links. The
        report's four counters and its fixed list are the fields left behind. */
    method Fix(contents: Path -> string) returns (unfixed: seq<string>)
      requires Valid()
      modifies this`htmlFiles, this`linkMap, this`order, this`fixedLinks
      modifies this`filesProcessed, this`linksChecked, this`linksBroken, this`linksFixed
      ensures Valid()
      ensures htmlFiles == old(htmlFiles) + HtmlOf(files)
      ensures Table(linkMap, order) == RecordFiles(Table(old(linkMap), old(order)), htmlFiles, contents, rootDir, files)
      ensures filesProcessed == old(filesProcessed) + |htmlFiles|
      ensures linksChecked == old(linksChecked) + MatchCount(htmlFiles, contents)
      ensures linksBroken == old(linksBroken) + BrokenCount(Table(linkMap, order), order)
      ensures linksFixed == old(linksFixed) + FixableCount(Table(linkMap, order), order, files)
      ensures linksFixed - old(linksFixed) <= linksBroken - old(linksBroken)
      ensures fixedLinks == old(fixedLinks) + FixedSet(Table(linkMap, order), order, files)
      ensures unfixed == Unfixed(Table(linkMap, order), fixedLinks)
      ensures forall h :: h in unfixed <==> Broken(Table(linkMap, order), h) && h !in fixedLinks
      ensures old(fixedLinks) == {} ==> forall h :: h in unfixed <==>
        Broken(Table(linkMap, order), h) && FindTarget(files, h).None?
    {
      ScanHtmlFiles();
      AnalyzeLinks(contents);
      FixBrokenLinks();
      unfixed := Unfixed(Table(linkMap, order), fixedLinks);
      forall h | h in linkMap
        ensures h in FixedSet(Table(linkMap, order), order, files) <==> Repairable(Table(linkMap, order), h, files)
      {
        FixedSetMembers(Table(linkMap, order), order, files, h);
      }
    }
  }

  /** The script's entry point: a fresh fixer over the walk runs fix() once. Its table is
      the recording of every HTML file of the walk, it never fixes more links than it
      finds broken, and the report lists, in first-sighting order, the broken links for
      which no replacement exists. */
  method RunFixer(rootDir: Path, files: seq<Path>, contents: Path -> string) returns (f: Fixer, unfixed: seq<string>)
    requires forall i :: 0 <= i < |files| ==> rootDir < files[i]
    ensures f.htmlFiles == HtmlOf(files) && f.fixedLinks <= f.linkMap.Keys
    ensures Table(f.linkMap, f.order) == RecordFiles(Table(map[], []), HtmlOf(files), contents, rootDir, files)
    ensures f.filesProcessed == |HtmlOf(files)| && f.linksChecked == MatchCount(HtmlOf(files), contents)
    ensures f.linksFixed <= f.linksBroken
    ensures unfixed == Unfixed(Table(f.linkMap, f.order), f.fixedLinks)
    ensures forall h :: h in unfixed <==> Broken(Table(f.linkMap, f.order), h) && FindTarget(files, h).None?
  {
    f := new Fixer(rootDir, files);
    unfixed := f.Fix(contents);
    FixedSetRepairable(Table(f.linkMap, f.order), f.order, files);
  }
}
