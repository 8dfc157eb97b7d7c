/**
 * The responsive container: a scrollable canvas whose scrollbar appears
 * only when the content overflows the canvas by more than a threshold,
 * the width given to the content beside it, and the canvas background
 * taken from the theme. Widget measurements and style lookups are inputs.
 */
module Responsive {
  import opened Wrappers
  import opened Text
  import OrderedMap
  import UiConfig

  // ---------------------------------------------------------------------
  // The scrollbar
  // ---------------------------------------------------------------------

  datatype Container = Container(threshold: int, scrollbarVisible: bool)

  /** A new container: a 50-pixel threshold and no scrollbar. */
  const NewContainer := Container(50, false)

  /** What a check did: waited for the canvas to be laid out, showed or hid the scrollbar, or nothing. */
  datatype CheckResult = Retry | Shown | Hidden | Unchanged

  /** The overflow that calls for a scrollbar. */
  predicate Overflows(threshold: int, canvasHeight: int, contentHeight: int) {
    contentHeight - canvasHeight > threshold
  }

  /**
   * `_check_scroll_needed`: before the canvas is laid out (height at most
   * 1) it only retries later; afterwards the scrollbar is shown or hidden
   * when, and only when, its visibility disagrees with the overflow.
   */
  function CheckScroll(c: Container, canvasHeight: int, contentHeight: int): (r: (Container, CheckResult))
    ensures canvasHeight <= 1 ==> r == (c, Retry)
    ensures canvasHeight > 1 ==>
      (r.0.threshold == c.threshold && (r.0.scrollbarVisible <==> Overflows(c.threshold, canvasHeight, contentHeight)))
    ensures r.1 == Shown <==> canvasHeight > 1 && !c.scrollbarVisible && Overflows(c.threshold, canvasHeight, contentHeight)
    ensures r.1 == Hidden <==> canvasHeight > 1 && c.scrollbarVisible && !Overflows(c.threshold, canvasHeight, contentHeight)
  {
    if canvasHeight <= 1 then (c, Retry)
    else
      var needed := contentHeight - canvasHeight > c.threshold;
      if needed && !c.scrollbarVisible then (Container(c.threshold, true), Shown)
      else if !needed && c.scrollbarVisible then (Container(c.threshold, false), Hidden)
      else (c, Unchanged)
  }

  /** Checking again with the same measurements changes nothing. */
  lemma CheckScrollIdempotent(c: Container, canvasHeight: int, contentHeight: int)
    requires canvasHeight > 1
    ensures var once := CheckScroll(c, canvasHeight, contentHeight).0;
      CheckScroll(once, canvasHeight, contentHeight) == (once, Unchanged)
  {
  }

  /** More content never hides a scrollbar that less content needed; a taller canvas never shows one. */
  lemma CheckScrollMonotone(c: Container, canvasHeight: int, less: int, more: int)
    requires canvasHeight > 1 && less <= more
    ensures CheckScroll(c, canvasHeight, less).0.scrollbarVisible ==> CheckScroll(c, canvasHeight, more).0.scrollbarVisible
  {
  }

  /** `set_min_scroll_threshold` followed by the check it schedules. */
  function SetThreshold(c: Container, threshold: int, canvasHeight: int, contentHeight: int): (r: Container)
    ensures r.threshold == threshold
    ensures canvasHeight > 1 ==> (r.scrollbarVisible <==> Overflows(threshold, canvasHeight, contentHeight))
    ensures canvasHeight <= 1 ==> r.scrollbarVisible == c.scrollbarVisible
  {
    CheckScroll(Container(threshold, c.scrollbarVisible), canvasHeight, contentHeight).0
  }

  /**
   * `_configure_canvas_window`: once the canvas has a width, the content
   * gets it all, less the scrollbar's width while the scrollbar shows.
   */
  function ContentWidth(c: Container, canvasWidth: int, scrollbarWidth: int): (r: Option<int>)
    ensures r.None? <==> canvasWidth <= 1
    ensures r.Some? && !c.scrollbarVisible ==> r.value == canvasWidth
    ensures r.Some? && c.scrollbarVisible ==> r.value + scrollbarWidth == canvasWidth
  {
    if canvasWidth <= 1 then None
    else Some(canvasWidth - (if c.scrollbarVisible then scrollbarWidth else 0))
  }

  /** After a check, the content is narrowed exactly when the content overflows. */
  lemma ContentWidthFollowsCheck(c: Container, canvasHeight: int, contentHeight: int, canvasWidth: int, scrollbarWidth: int)
    requires canvasHeight > 1 && canvasWidth > 1 && scrollbarWidth > 0
    ensures var after := CheckScroll(c, canvasHeight, contentHeight).0;
      ContentWidth(after, canvasWidth, scrollbarWidth) == Some(canvasWidth - scrollbarWidth) <==>
        Overflows(c.threshold, canvasHeight, contentHeight)
  {
  }

  // ---------------------------------------------------------------------
  // The canvas background
  // ---------------------------------------------------------------------

  const DarkBackground := "#2b3e50"
  const LightBackground := "#ffffff"

  /** The theme name, lower-cased, mentions one of the four dark markers. */
  predicate NamedDark(themeName: string) {
    var n := Lower(themeName);
    Contains(n, "dark") || Contains(n, "cyborg") || Contains(n, "solar") || Contains(n, "superhero")
  }

  /** The fallback colour as written: dark only for theme names with a dark marker. */
  function FallbackBackgroundAsWritten(themeName: string): (r: string)
    ensures r == DarkBackground <==> NamedDark(themeName)
    ensures r == LightBackground <==> !NamedDark(themeName)
  {
    if NamedDark(themeName) then DarkBackground else LightBackground
  }

  /** "vapor", listed as a dark theme, carries no dark marker in its name. */
  lemma VaporFallsBackToLight()
    ensures FallbackBackgroundAsWritten("vapor") == LightBackground
    ensures ListedDark("vapor")
  {
    VaporListedDark();
    VaporUnmarked();
  }

  lemma {:induction false} TooShortToContain(s: string, sub: string)
    requires |s| < |sub|
    ensures !Contains(s, sub)
    decreases |s|
  {
    if |s| > 0 {
      TooShortToContain(s[1..], sub);
    }
  }

  lemma VaporUnmarked()
    ensures !NamedDark("vapor")
  {
    var v := "vapor";
    LowerVapor();
    TooShortToContain(v, "cyborg");
    TooShortToContain(v, "superhero");
    assert v[1..] == "apor" && v[2..] == "por";
    TooShortToContain("apor", "solar");
    assert !StartsWith(v, "solar");
    TooShortToContain("por", "dark");
    assert !StartsWith(v, "dark") && !StartsWith("apor", "dark");
  }

  /** The preferences' theme list calls the (lower-cased) name a dark theme. */
  predicate ListedDark(themeName: string) {
    var info := UiConfig.GetThemeInfo(Lower(themeName));
    info.Some? && info.value.kind == "dark"
  }

  /** The fallback colour with every dark theme of the list counted as dark. */
  function FallbackBackground(themeName: string): (r: string)
    ensures r == DarkBackground <==> NamedDark(themeName) || ListedDark(themeName)
    ensures r == LightBackground <==> !(NamedDark(themeName) || ListedDark(themeName))
  {
    if NamedDark(themeName) || ListedDark(themeName) then DarkBackground else LightBackground
  }

  /** Lower-casing twice is lower-casing once. */
  lemma LowerIdempotent(s: string)
    ensures Lower(Lower(s)) == Lower(s)
  {
    assert forall i :: 0 <= i < |s| ==> LowerChar(LowerChar(s[i])) == LowerChar(s[i]);
  }

  /** The fallback does not depend on the case of the theme name. */
  lemma FallbackIgnoresCase(themeName: string)
    ensures FallbackBackground(Lower(themeName)) == FallbackBackground(themeName)
    ensures FallbackBackgroundAsWritten(Lower(themeName)) == FallbackBackgroundAsWritten(themeName)
  {
    LowerIdempotent(themeName);
  }

  /** The corrected fallback agrees with the original except on listed dark themes, which it makes dark. */
  lemma FallbackExtendsAsWritten(themeName: string)
    ensures FallbackBackgroundAsWritten(themeName) == DarkBackground ==> FallbackBackground(themeName) == DarkBackground
    ensures !ListedDark(themeName) ==> FallbackBackground(themeName) == FallbackBackgroundAsWritten(themeName)
    ensures FallbackBackground("vapor") == DarkBackground
  {
    VaporListedDark();
  }

  lemma VaporListedDark()
    ensures ListedDark("vapor")
  {
    LowerVapor();
    VaporInfo();
  }

  lemma LowerVapor()
    ensures Lower("vapor") == "vapor"
  {
    var v := "vapor";
    assert forall i :: 0 <= i < |v| ==> LowerChar(v[i]) == v[i];
  }

  lemma VaporInfo()
    ensures UiConfig.GetThemeInfo("vapor") == Some(UiConfig.ThemeInfo("Vapor", "dark", "Dark purple theme"))
  {
    var t := UiConfig.AvailableThemes;
    assert t[4].0 == "vapor" && t[4].0[0] == 'v';
    assert t[0].0[0] == 'd' && t[1].0[0] == 's' && t[2].0[0] == 'c' && t[3].0[0] == 's';
    OrderedMap.LookupFirst(t, 4);
  }

  /** The first non-empty answer of the style lookups, in the order they are tried. */
  function FirstColour(found: seq<string>): (r: Option<string>)
    ensures r.None? <==> forall i :: 0 <= i < |found| ==> found[i] == ""
    ensures forall i :: 0 <= i < |found| && found[i] != "" && (forall j :: 0 <= j < i ==> found[j] == "") ==> r == Some(found[i])
    decreases |found|
  {
    if |found| == 0 then None
    else if found[0] != "" then Some(found[0])
    else
      assert forall i :: 1 <= i < |found| ==> found[1..][i - 1] == found[i];
      FirstColour(found[1..])
  }

  /**
   * `_get_theme_bg_color`: the first colour the style lookups produce (an
   * empty answer counts as none). When every answer is empty the method
   * calls `style.theme_settings` with the theme name alone; that method
   * also takes the settings, so the call raises TypeError and the handler
   * returns the dark colour, whatever the theme. The name-based fallback
   * after it is never reached.
   */
  function ThemeBackground(found: seq<string>): (r: string)
    ensures (forall i :: 0 <= i < |found| ==> found[i] == "") ==> r == DarkBackground
    ensures forall i :: 0 <= i < |found| && found[i] != "" && (forall j :: 0 <= j < i ==> found[j] == "") ==> r == found[i]
  {
    match FirstColour(found)
    case Some(c) => c
    case None => DarkBackground
  }

  /** `_get_theme_bg_color` with the theme-settings step passing through to the name-based fallback. */
  function ThemeBackgroundIntended(found: seq<string>, themeName: string): (r: string)
    ensures (forall i :: 0 <= i < |found| ==> found[i] == "") ==> r == FallbackBackground(themeName)
    ensures forall i :: 0 <= i < |found| && found[i] != "" && (forall j :: 0 <= j < i ==> found[j] == "") ==> r == found[i]
  {
    match FirstColour(found)
    case Some(c) => c
    case None => FallbackBackground(themeName)
  }

  /**
   * The two agree whenever some lookup answers; when none does, the light
   * theme "flatly" gets the dark colour as written and white as intended.
   */
  lemma LightThemeGetsDarkBackground(found: seq<string>, themeName: string)
    ensures FirstColour(found).Some? ==> ThemeBackground(found) == ThemeBackgroundIntended(found, themeName)
    ensures FirstColour(found).None? ==>
      ThemeBackground(found) == DarkBackground && ThemeBackgroundIntended(found, "flatly") == LightBackground
  {
    FlatlyLight();
  }

  lemma FlatlyLight()
    ensures FallbackBackground("flatly") == LightBackground
  {
    FlatlyUnmarked();
    FlatlyUnlisted();
  }

  lemma LowerFlatly()
    ensures Lower("flatly") == "flatly"
  {
    var f := "flatly";
    assert forall i :: 0 <= i < |f| ==> LowerChar(f[i]) == f[i];
  }

  lemma FlatlyUnmarked()
    ensures !NamedDark("flatly")
  {
    LowerFlatly();
    FlatlyLacks("cyborg");
    FlatlyLacks("solar");
    FlatlyLacks("dark");
    TooShortToContain("flatly", "superhero");
  }

  /** No marker starting with a letter other than f, l or a fits into "flatly". */
  lemma FlatlyLacks(marker: string)
    requires 4 <= |marker| && marker[0] != 'f' && marker[0] != 'l' && marker[0] != 'a'
    ensures !Contains("flatly", marker)
  {
    var f := "flatly";
    assert f[1..] == "latly" && "latly"[1..] == "atly" && "atly"[1..] == "tly";
    if |marker| > 6 {
      TooShortToContain(f, marker);
      return;
    }
    assert !StartsWith(f, marker) by { assert f[..|marker|][0] == 'f'; }
    if |marker| > 5 {
      TooShortToContain("latly", marker);
    } else {
      assert !StartsWith("latly", marker) by { assert "latly"[..|marker|][0] == 'l'; }
      if |marker| > 4 {
        TooShortToContain("atly", marker);
      } else {
        assert !StartsWith("atly", marker) by { assert "atly"[..|marker|][0] == 'a'; }
        TooShortToContain("tly", marker);
      }
    }
  }

  lemma FlatlyUnlisted()
    ensures !ListedDark("flatly")
  {
    LowerFlatly();
    var t := UiConfig.AvailableThemes;
    assert t[5].0 == "flatly" && t[5].0[0] == 'f';
    assert t[0].0[0] == 'd' && t[1].0[0] == 's' && t[2].0[0] == 'c' && t[3].0[0] == 's' && t[4].0[0] == 'v';
    OrderedMap.LookupFirst(t, 5);
  }
}
