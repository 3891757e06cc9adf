/** The font fallback script: it picks a system font stack from the user agent, tests
    whether the web fonts Montserrat and Questrial are available by comparing rendered
    widths, gives the body, the headings and the brand text local stacks when they are
    not, and after a timeout marks every element for the system stack when the body's
    computed font looks like a fallback. Widths and the computed font are inputs. */
module FontFallback {
  import opened Js

  // ------------------------------------------------------------ system stack

  const YaheiStack: string := "\"Microsoft YaHei\", \"微软雅黑\", sans-serif"
  const MacStack: string := "\"PingFang SC\", " + "\"Hiragino Sans GB\", \"Microsoft YaHei\", sans-serif"
  const LinuxStack: string := "\"WenQuanYi Micro Hei\", " + "\"Microsoft YaHei\", sans-serif"

  /** The stack for `.system-font-fallback`, chosen by the first of `windows`, `mac`,
      `linux` that the lower-cased user agent contains. Windows and an unknown system
      share the YaHei stack. */
  function SystemFonts(userAgent: string): (r: string)
    ensures Includes(ToLower(userAgent), "windows") ==> r == YaheiStack
    ensures !Includes(ToLower(userAgent), "windows") && Includes(ToLower(userAgent), "mac") ==> r == MacStack
    ensures !Includes(ToLower(userAgent), "windows") && !Includes(ToLower(userAgent), "mac")
      ==> r == (if Includes(ToLower(userAgent), "linux") then LinuxStack else YaheiStack)
  {
    var ua := ToLower(userAgent);
    if Includes(ua, "windows") then YaheiStack
    else if Includes(ua, "mac") then MacStack
    else if Includes(ua, "linux") then LinuxStack
    else YaheiStack
  }

  /** The system name logged beside the choice, by the same tests in the same order. */
  function SystemName(userAgent: string): string {
    var ua := ToLower(userAgent);
    if Includes(ua, "windows") then "Windows"
    else if Includes(ua, "mac") then "macOS"
    else if Includes(ua, "linux") then "Linux"
    else "未知"
  }

  /** The logged name always agrees with the stack chosen: macOS and Linux get their own
      stacks, Windows and an unknown system the YaHei stack. */
  lemma NameAgreesWithStack(userAgent: string)
    ensures SystemName(userAgent) == "macOS" <==> SystemFonts(userAgent) == MacStack
    ensures SystemName(userAgent) == "Linux" <==> SystemFonts(userAgent) == LinuxStack
    ensures SystemName(userAgent) in {"Windows", "未知"} <==> SystemFonts(userAgent) == YaheiStack
  {
    assert YaheiStack[1] == 'M' && MacStack[1] == 'P' && LinuxStack[1] == 'W';
  }

  /** A Windows user agent that also mentions the Mac (or Linux) still gets the YaHei
      stack: the tests are ordered. */
  lemma WindowsWins(prefix: string, suffix: string)
    ensures SystemFonts(prefix + "Windows NT 10.0; Macintosh" + suffix) == YaheiStack
  {
    var ua := prefix + "Windows NT 10.0; Macintosh" + suffix;
    var lower := ToLower(ua);
    var i := |prefix|;
    assert lower[i..i + 7] == "windows" by {
      forall m | 0 <= m < 7 ensures lower[i..i + 7][m] == "windows"[m] {
        assert ua[i + m] == "Windows NT 10.0; Macintosh"[m];
      }
    }
    assert OccursAt(lower, "windows", i);
  }

  // ------------------------------------------------------------ availability

  /** isFontAvailable: the test text is measured in monospace, then in the font with
      monospace behind it; the font is taken to be available iff the widths differ.
      `widthIn(family)` is the width the test span has with that font-family. */
  function IsFontAvailable(fontName: string, widthIn: string -> int): (r: bool)
    ensures r <==> widthIn(fontName + ", monospace") != widthIn("monospace")
  {
    var originalWidth := widthIn("monospace");
    var newWidth := widthIn(fontName + ", monospace");
    originalWidth != newWidth
  }

  /** The stack given to the body and the headings when a web font is missing. */
  const LocalStack: string := "\"Microsoft YaHei\", \"微软雅黑\", \"PingFang SC\", \"Hiragino Sans GB\", \"Heiti SC\", \"WenQuanYi Micro Hei\", -apple-system, BlinkMacSystemFont, \"Segoe UI\", Roboto, \"Helvetica Neue\", Arial, " + "sans-serif"

  /** The stack given to brand text when Questrial is missing. */
  const BrandStack: string := "\"Microsoft YaHei UI\", \"Microsoft YaHei\", \"微软雅黑\", \"PingFang SC\", \"Hiragino Sans GB\", \"Source Han Sans CN\", \"Noto Sans CJK SC\", \"WenQuanYi Micro Hei\", -apple-system, BlinkMacSystemFont, \"Segoe UI\", Roboto, \"Helvetica Neue\", Arial, " + "sans-serif"

  /** An element whose inline font and classes the script sets. */
  class Styled {
    var fontFamily: string
    var classes: set<string>

    constructor(fontFamily: string, classes: set<string>)
      ensures this.fontFamily == fontFamily && this.classes == classes
    {
      this.fontFamily, this.classes := fontFamily, classes;
    }
  }

  /** Sets the font of every listed element; an element listed twice is set twice to the
      same stack. */
  method SetFonts(elements: seq<Styled>, stack: string)
    modifies (set k | 0 <= k < |elements| :: elements[k])`fontFamily
    ensures forall k :: 0 <= k < |elements| ==> elements[k].fontFamily == stack
    ensures forall k :: 0 <= k < |elements| ==> elements[k].classes == old(elements[k].classes)
  {
    var i := 0;
    while i < |elements|
      invariant 0 <= i <= |elements|
      invariant forall k :: 0 <= k < i ==> elements[k].fontFamily == stack
      invariant forall k :: 0 <= k < |elements| ==> elements[k].classes == old(elements[k].classes)
    {
      elements[i].fontFamily := stack;
      i := i + 1;
    }
  }

  /** applyFontFallback: the body gets the local stack iff Montserrat is unavailable; the
      headings get the local stack and then the brand elements the brand stack iff
      Questrial is unavailable, so an element that is both ends with the brand stack. */
  method ApplyFontFallback(body: Styled, headings: seq<Styled>, brands: seq<Styled>, widthIn: string -> int)
    requires body !in headings && body !in brands
    modifies ({body} + (set k | 0 <= k < |headings| :: headings[k]) + (set k | 0 <= k < |brands| :: brands[k]))`fontFamily
    ensures body.fontFamily == if IsFontAvailable("Montserrat", widthIn) then old(body.fontFamily) else LocalStack
    ensures !IsFontAvailable("Questrial", widthIn) ==>
      && (forall k :: 0 <= k < |brands| ==> brands[k].fontFamily == BrandStack)
      && (forall k :: 0 <= k < |headings| && headings[k] !in brands ==> headings[k].fontFamily == LocalStack)
    ensures IsFontAvailable("Questrial", widthIn) ==>
      && (forall k :: 0 <= k < |headings| ==> headings[k].fontFamily == old(headings[k].fontFamily))
      && (forall k :: 0 <= k < |brands| ==> brands[k].fontFamily == old(brands[k].fontFamily))
  {
    var montserratAvailable := IsFontAvailable("Montserrat", widthIn);
    var questrialAvailable := IsFontAvailable("Questrial", widthIn);
    if !montserratAvailable {
      body.fontFamily := LocalStack;
    }
    if !questrialAvailable {
      SetFonts(headings, LocalStack);
      SetFonts(brands, BrandStack);
    }
  }

  // ------------------------------------------------------------ timeout

  /** The timeout's test, as written: the computed font is empty or contains `serif`
      anywhere, `sans-serif` included. */
  predicate LooksLikeFallback(currentFont: string) {
    currentFont == "" || Includes(currentFont, "serif")
  }

  /** The test as meant: the font is empty, or names the generic `serif` family itself,
      that is an occurrence of `serif` not preceded by `sans-`. */
  predicate NamesSerifFamily(currentFont: string) {
    currentFont == "" || exists i | 0 <= i <= |currentFont| - 5 :: OccursAt(currentFont, "serif", i) && !(i >= 5 && OccursAt(currentFont, "sans-", i - 5))
  }

  /** Any stack ending in `sans-serif`, the local stack that applyFontFallback itself sets
      included, passes the written test. */
  lemma SansSerifLooksLikeFallback(currentFont: string)
    requires EndsWith(currentFont, "sans-serif")
    ensures LooksLikeFallback(currentFont)
  {
    var i := |currentFont| - 5;
    assert currentFont[i..i + 5] == currentFont[|currentFont| - 10..][5..];
    assert OccursAt(currentFont, "serif", i);
  }

  lemma LocalStackLooksLikeFallback()
    ensures LooksLikeFallback(LocalStack) && LooksLikeFallback(BrandStack)
  {
    var h := "\"Microsoft YaHei\", \"微软雅黑\", \"PingFang SC\", \"Hiragino Sans GB\", \"Heiti SC\", \"WenQuanYi Micro Hei\", -apple-system, BlinkMacSystemFont, \"Segoe UI\", Roboto, \"Helvetica Neue\", Arial, ";
    assert (h + "sans-serif")[|h + "sans-serif"| - 10..] == "sans-serif";
    SansSerifLooksLikeFallback(LocalStack);
    var b := "\"Microsoft YaHei UI\", \"Microsoft YaHei\", \"微软雅黑\", \"PingFang SC\", \"Hiragino Sans GB\", \"Source Han Sans CN\", \"Noto Sans CJK SC\", \"WenQuanYi Micro Hei\", -apple-system, BlinkMacSystemFont, \"Segoe UI\", Roboto, \"Helvetica Neue\", Arial, ";
    assert (b + "sans-serif")[|b + "sans-serif"| - 10..] == "sans-serif";
    SansSerifLooksLikeFallback(BrandStack);
  }

  /** A sans-serif stack such as `Arial, sans-serif` (no `s` before the generic name) passes
      the written test although it names no serif font. */
  lemma {:induction false} SansSerifStackIsNotSerif(prefix: string)
    requires 's' !in prefix
    ensures LooksLikeFallback(prefix + "sans-serif")
    ensures !NamesSerifFamily(prefix + "sans-serif")
  {
    var f := prefix + "sans-serif";
    var n := |prefix|;
    assert f[n..] == "sans-serif";
    SansSerifLooksLikeFallback(f);
    forall i | OccursAt(f, "serif", i)
      ensures i >= 5 && OccursAt(f, "sans-", i - 5)
    {
      assert f[i] == f[i..i + 5][0] == 's';
      assert f[i + 1] == f[i..i + 5][1] == 'e';
      assert forall j :: 0 <= j < n ==> f[j] == prefix[j] && f[j] != 's';
      assert n <= i;
      assert f[i + 1] == "sans-serif"[i + 1 - n];
      assert i - n == 5 by {
        var j := i - n;
        assert 0 <= j <= 5;
        assert "sans-serif"[j] == 's' && "sans-serif"[j + 1] == 'e';
        assert j != 0 && j != 1 && j != 2 && j != 3 && j != 4;
      }
      assert f[n..n + 5] == "sans-";
    }
  }

  /** A stack ending in the generic `serif` family passes both tests. */
  lemma SerifStackIsSerif(currentFont: string)
    requires EndsWith(currentFont, ", serif")
    ensures LooksLikeFallback(currentFont) && NamesSerifFamily(currentFont)
  {
    var i := |currentFont| - 5;
    var tail := currentFont[|currentFont| - 7..];
    assert currentFont[i..i + 5] == tail[2..];
    assert OccursAt(currentFont, "serif", i);
    assert currentFont[i - 1] == tail[1] == ' ';
    assert !OccursAt(currentFont, "sans-", i - 5) by {
      if i >= 5 && i - 5 + 5 <= |currentFont| {
        assert currentFont[i - 5..i][4] == currentFont[i - 1];
      }
    }
  }

  /** Every written-test hit that the meant test also reports. */
  lemma SerifFamilyLooksLikeFallback(currentFont: string)
    ensures NamesSerifFamily(currentFont) ==> LooksLikeFallback(currentFont)
  {
  }

  /** handleFontTimeout: when the body's computed font passes the test, the body and every
      element of the page gain `system-font-fallback`; otherwise nothing changes. The
      computed font is an input. */
  method HandleFontTimeout(currentFont: string, body: Styled, all: seq<Styled>, meant: bool) returns (fired: bool)
    modifies ({body} + set k | 0 <= k < |all| :: all[k])`classes
    ensures fired <==> if meant then NamesSerifFamily(currentFont) else LooksLikeFallback(currentFont)
    ensures fired ==> body.classes == old(body.classes) + {"system-font-fallback"}
    ensures fired ==> forall k :: 0 <= k < |all| ==> all[k].classes == old(all[k].classes) + {"system-font-fallback"}
    ensures !fired ==> body.classes == old(body.classes) && forall k :: 0 <= k < |all| ==> all[k].classes == old(all[k].classes)
  {
    fired := if meant then NamesSerifFamily(currentFont) else currentFont == "" || Includes(currentFont, "serif");
    if fired {
      body.classes := body.classes + {"system-font-fallback"};
      var i := 0;
      while i < |all|
        invariant 0 <= i <= |all|
        invariant body.classes == old(body.classes) + {"system-font-fallback"}
        invariant forall k :: 0 <= k < |all| ==>
          all[k].classes == old(all[k].classes) + (if all[k] in all[..i] || all[k] == body then {"system-font-fallback"} else {})
      {
        all[i].classes := all[i].classes + {"system-font-fallback"};
        assert all[..i + 1] == all[..i] + [all[i]];
        i := i + 1;
      }
      assert all[..i] == all;
    }
  }
}
