/** The font loading helper: it records which critical fonts have loaded (from the Font
    Loading API's `loadingdone` events, or by comparing text widths on a canvas with
    retries), marks the document `fonts-loaded` once enough have loaded or after a
    timeout, announces the loaded list, and strips `font-loading` from the page. Timers,
    events and canvas measurements are inputs. */
module FontLoading {
  import opened Js

  /** The fonts whose loading the page waits for. */
  const CriticalFonts: seq<string> := ["Montserrat-Optimized", "Questrial-Optimized"]

  /** How many retries follow a first measurement equal to the fallback width. */
  const MaxRetries: nat := 10

  predicate IsCritical(family: string) {
    family in CriticalFonts
  }

  /** The critical families among the faces of a `loadingdone` event, in order, repeats
      kept. */
  function CriticalFaces(families: seq<string>): (r: seq<string>)
    ensures |r| <= |families|
    ensures forall f :: f in r <==> f in families && IsCritical(f)
  {
    if families == [] then []
    else (if IsCritical(families[0]) then [families[0]] else []) + CriticalFaces(families[1..])
  }

  /** The condition checkAllFontsLoaded tests, as written: as many entries as critical
      fonts, whichever they are. */
  predicate EnoughEntries(loaded: seq<string>) {
    |loaded| >= |CriticalFonts|
  }

  /** What the check is meant to establish: every critical font has loaded. */
  predicate AllCriticalLoaded(loaded: seq<string>) {
    forall i :: 0 <= i < |CriticalFonts| ==> CriticalFonts[i] in loaded
  }

  /** Every critical font loaded implies the written condition, but not the other way
      round: two faces of one family make two entries. */
  lemma AllCriticalHaveEnoughEntries(loaded: seq<string>)
    ensures AllCriticalLoaded(loaded) ==> EnoughEntries(loaded)
  {
    if AllCriticalLoaded(loaded) && |loaded| < 2 {
      assert CriticalFonts[0] in loaded && CriticalFonts[1] in loaded;
      assert CriticalFonts[0] != CriticalFonts[1] by {
        assert CriticalFonts[0][0] != CriticalFonts[1][0];
      }
      var i :| 0 <= i < |loaded| && loaded[i] == CriticalFonts[0];
      var j :| 0 <= j < |loaded| && loaded[j] == CriticalFonts[1];
    }
  }

  /** Whether some measurement among the first `count` differs from the fallback width. */
  predicate DiffersWithin(widths: nat -> int, fallbackWidth: int, count: nat) {
    exists t :: 0 <= t < count && widths(t) != fallbackWidth
  }

  class FontLoader {
    /** loadedFonts, in the order entries were pushed. */
    var loadedFonts: seq<string>
    /** The classes on the document element. */
    var rootClasses: set<string>
    /** The `loadedFonts` detail of every `fontsLoaded` event dispatched, in order. */
    var announced: seq<seq<string>>
    /** The elements (by number) that still carry the `font-loading` class. */
    var fontLoading: set<nat>

    constructor(fontLoading: set<nat>)
      ensures loadedFonts == [] && rootClasses == {} && announced == [] && this.fontLoading == fontLoading
    {
      loadedFonts, rootClasses, announced := [], {}, [];
      this.fontLoading := fontLoading;
    }

    /** detectFontSupport: a class for `font-display: swap` support and one for the Font
        Loading API. */
    method DetectFontSupport(displaySwap: bool, loadingApi: bool)
      modifies this
      ensures rootClasses == old(rootClasses)
        + (if displaySwap then {"font-display-swap"} else {})
        + (if loadingApi then {"font-loading-api"} else {})
      ensures loadedFonts == old(loadedFonts) && announced == old(announced) && fontLoading == old(fontLoading)
    {
      if displaySwap {
        rootClasses := rootClasses + {"font-display-swap"};
      }
      if loadingApi {
        rootClasses := rootClasses + {"font-loading-api"};
      }
    }

    /** onFontsLoaded: the document is marked, the current list is announced and no element
        keeps `font-loading`. It runs again every time it is called. */
    method OnFontsLoaded()
      modifies this
      ensures rootClasses == old(rootClasses) + {"fonts-loaded"}
      ensures announced == old(announced) + [loadedFonts]
      ensures fontLoading == {} && loadedFonts == old(loadedFonts)
    {
      rootClasses := rootClasses + {"fonts-loaded"};
      announced := announced + [loadedFonts];
      fontLoading := {};
    }

    /** checkAllFontsLoaded, as written. */
    method CheckAllFontsLoaded()
      modifies this
      ensures loadedFonts == old(loadedFonts)
      ensures EnoughEntries(loadedFonts) ==>
        rootClasses == old(rootClasses) + {"fonts-loaded"} && announced == old(announced) + [loadedFonts] && fontLoading == {}
      ensures !EnoughEntries(loadedFonts) ==>
        rootClasses == old(rootClasses) && announced == old(announced) && fontLoading == old(fontLoading)
    {
      if |loadedFonts| >= |CriticalFonts| {
        OnFontsLoaded();
      }
    }

    /** The `loadingdone` listener: each critical face's family is pushed, then the check
        runs. */
    method OnLoadingDone(families: seq<string>)
      modifies this
      ensures loadedFonts == old(loadedFonts) + CriticalFaces(families)
      ensures EnoughEntries(loadedFonts) ==>
        rootClasses == old(rootClasses) + {"fonts-loaded"} && announced == old(announced) + [loadedFonts] && fontLoading == {}
      ensures !EnoughEntries(loadedFonts) ==>
        rootClasses == old(rootClasses) && announced == old(announced) && fontLoading == old(fontLoading)
    {
      var i := 0;
      while i < |families|
        invariant 0 <= i <= |families|
        invariant loadedFonts == old(loadedFonts) + CriticalFaces(families[..i])
        modifies this`loadedFonts
      {
        CriticalFacesSnoc(families[..i], families[i]);
        assert families[..i + 1] == families[..i] + [families[i]];
        if families[i] in CriticalFonts {
          loadedFonts := loadedFonts + [families[i]];
        }
        i := i + 1;
      }
      assert families[..i] == families;
      CheckAllFontsLoaded();
    }

    /** testFontLoaded: `widths(0)` is the first measurement of the family against the
        fallback width and `widths(t)` the one taken at the t-th interval tick. The
        interval is cleared at the first tick whose width differs or whose retry count has
        reached ten, so it runs at most eleven ticks; the family is pushed, and the check
        run, exactly when one of the measurements differs. */
    method TestFontLoaded(family: string, fallbackWidth: int, widths: nat -> int) returns (ticks: nat)
      modifies this
      ensures ticks <= MaxRetries + 1
      ensures DiffersWithin(widths, fallbackWidth, ticks + 1) <==> DiffersWithin(widths, fallbackWidth, MaxRetries + 2)
      ensures forall t :: 0 <= t < ticks ==> widths(t) == fallbackWidth
      ensures DiffersWithin(widths, fallbackWidth, MaxRetries + 2) ==>
        loadedFonts == old(loadedFonts) + [family]
        && (EnoughEntries(loadedFonts) ==>
              rootClasses == old(rootClasses) + {"fonts-loaded"} && announced == old(announced) + [loadedFonts] && fontLoading == {})
        && (!EnoughEntries(loadedFonts) ==>
              rootClasses == old(rootClasses) && announced == old(announced) && fontLoading == old(fontLoading))
      ensures !DiffersWithin(widths, fallbackWidth, MaxRetries + 2) ==>
        loadedFonts == old(loadedFonts) && rootClasses == old(rootClasses) && announced == old(announced)
        && fontLoading == old(fontLoading)
    {
      ticks := 0;
      if widths(0) != fallbackWidth {
        loadedFonts := loadedFonts + [family];
        CheckAllFontsLoaded();
        return;
      }
      var retryCount := 0;
      var stopped := false;
      while !stopped
        invariant 0 <= retryCount <= MaxRetries + 1
        invariant !stopped ==> retryCount <= MaxRetries
        invariant ticks == retryCount
        invariant forall t :: 0 <= t <= ticks ==> widths(t) == fallbackWidth
        invariant loadedFonts == old(loadedFonts) && rootClasses == old(rootClasses) && announced == old(announced)
        invariant stopped ==> ticks == MaxRetries + 1
        decreases MaxRetries + 1 - retryCount, if stopped then 0 else 1
      {
        var current := widths(ticks + 1);
        if current != fallbackWidth || retryCount >= MaxRetries {
          if current != fallbackWidth {
            ticks := ticks + 1;
            loadedFonts := loadedFonts + [family];
            CheckAllFontsLoaded();
            assert widths(ticks) != fallbackWidth;
            return;
          }
          stopped := true;
        }
        retryCount := retryCount + 1;
        ticks := ticks + 1;
      }
    }

    /** The three second fallback: onFontsLoaded runs unless the document is already
        marked. */
    method OnTimeout()
      modifies this
      ensures "fonts-loaded" in rootClasses
      ensures "fonts-loaded" in old(rootClasses) ==>
        rootClasses == old(rootClasses) && announced == old(announced) && fontLoading == old(fontLoading)
      ensures "fonts-loaded" !in old(rootClasses) ==>
        announced == old(announced) + [loadedFonts] && fontLoading == {}
      ensures loadedFonts == old(loadedFonts)
    {
      if "fonts-loaded" !in rootClasses {
        OnFontsLoaded();
      }
    }

    /** The check as it is meant to be: the document is marked only once every critical
        font has loaded. */
    method CheckAllCriticalLoaded()
      modifies this
      ensures loadedFonts == old(loadedFonts)
      ensures AllCriticalLoaded(loadedFonts) ==>
        rootClasses == old(rootClasses) + {"fonts-loaded"} && announced == old(announced) + [loadedFonts] && fontLoading == {}
      ensures !AllCriticalLoaded(loadedFonts) ==>
        rootClasses == old(rootClasses) && announced == old(announced) && fontLoading == old(fontLoading)
    {
      if forall i | 0 <= i < |CriticalFonts| :: CriticalFonts[i] in loadedFonts {
        OnFontsLoaded();
      }
    }

    /** The `loadingdone` listener with the corrected check. */
    method OnLoadingDoneCorrected(families: seq<string>)
      modifies this
      ensures loadedFonts == old(loadedFonts) + CriticalFaces(families)
      ensures AllCriticalLoaded(loadedFonts) ==>
        rootClasses == old(rootClasses) + {"fonts-loaded"} && announced == old(announced) + [loadedFonts] && fontLoading == {}
      ensures !AllCriticalLoaded(loadedFonts) ==>
        rootClasses == old(rootClasses) && announced == old(announced) && fontLoading == old(fontLoading)
    {
      var i := 0;
      while i < |families|
        invariant 0 <= i <= |families|
        invariant loadedFonts == old(loadedFonts) + CriticalFaces(families[..i])
        modifies this`loadedFonts
      {
        CriticalFacesSnoc(families[..i], families[i]);
        assert families[..i + 1] == families[..i] + [families[i]];
        if families[i] in CriticalFonts {
          loadedFonts := loadedFonts + [families[i]];
        }
        i := i + 1;
      }
      assert families[..i] == families;
      CheckAllCriticalLoaded();
    }
  }

  lemma {:induction false} CriticalFacesSnoc(families: seq<string>, f: string)
    ensures CriticalFaces(families + [f]) == CriticalFaces(families) + (if IsCritical(f) then [f] else [])
  {
    if families == [] {
      assert [f][1..] == [];
    } else {
      assert (families + [f])[1..] == families[1..] + [f];
      CriticalFacesSnoc(families[1..], f);
    }
  }

  /** One `loadingdone` event carrying two faces of Montserrat (say, regular and bold)
      marks the document loaded while Questrial has not loaded at all. */
  method TwoFacesOfOneFamily() returns (marked: bool, questrialLoaded: bool)
    ensures marked && !questrialLoaded
  {
    var l := new FontLoader({});
    l.OnLoadingDone(["Montserrat-Optimized", "Montserrat-Optimized"]);
    assert CriticalFaces(["Montserrat-Optimized", "Montserrat-Optimized"]) == ["Montserrat-Optimized", "Montserrat-Optimized"] by {
      assert ["Montserrat-Optimized", "Montserrat-Optimized"][1..] == ["Montserrat-Optimized"];
    }
    marked, questrialLoaded := "fonts-loaded" in l.rootClasses, "Questrial-Optimized" in l.loadedFonts;
    assert "Montserrat-Optimized"[0] != "Questrial-Optimized"[0];
  }

  /** With the corrected check the same event leaves the document unmarked. */
  method TwoFacesOfOneFamilyCorrected() returns (marked: bool)
    ensures !marked
  {
    var l := new FontLoader({});
    l.OnLoadingDoneCorrected(["Montserrat-Optimized", "Montserrat-Optimized"]);
    assert CriticalFaces(["Montserrat-Optimized", "Montserrat-Optimized"]) == ["Montserrat-Optimized", "Montserrat-Optimized"] by {
      assert ["Montserrat-Optimized", "Montserrat-Optimized"][1..] == ["Montserrat-Optimized"];
    }
    assert "Montserrat-Optimized"[0] != "Questrial-Optimized"[0];
    assert CriticalFonts[1] !in l.loadedFonts;
    marked := "fonts-loaded" in l.rootClasses;
  }
}
