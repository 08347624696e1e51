/** The application-wide theme (src/ui/ThemeManager.cpp): a theme the user
    picked, or Auto to follow the system's colour scheme, and the theme in
    effect. Installing a palette and style sheet and emitting themeChanged
    is one event, recorded in `events`; the look it leaves in effect is
    `style`. */
module Themes {

  datatype Theme = Light | Dark | Auto

  /** Qt::ColorScheme as the platform reports it. */
  datatype Scheme = UnknownScheme | LightScheme | DarkScheme

  /** The look in effect: Qt's own until a theme is installed, then the
      dark palette and sheet for Dark and the light ones for anything else. */
  datatype Style = QtDefault | LightStyle | DarkStyle

  function StyleOf(theme: Theme): (s: Style)
    ensures s != QtDefault
    ensures s == DarkStyle <==> theme == Dark
  {
    if theme == Dark then DarkStyle else LightStyle
  }

  /** The theme that following the system gives: Dark exactly for a dark
      scheme, Light for a light or unknown one. */
  function SystemTheme(scheme: Scheme): (t: Theme)
    ensures t != Auto
    ensures t == Dark <==> scheme == DarkScheme
  {
    if scheme == DarkScheme then Dark else Light
  }

  const InterFamily := "Inter"
  const FallbackFamily := "Segoe UI"
  const FontPointSize := 10

  class ThemeManager {
    /** The theme in effect. */
    var current: Theme
    /** The theme the user picked; Auto follows the system. */
    var manual: Theme
    var style: Style
    /** Every themeChanged signal, oldest first. */
    var events: seq<Theme>
    var fontFamily: string
    var fontSize: int

    /** The theme in effect is always a concrete one. */
    predicate Valid()
      reads this
    {
      current != Auto
    }

    /** The look in effect is the one installed for the current theme. */
    predicate Styled()
      reads this
    {
      style == StyleOf(current)
    }

    /** Starts at Light following the system, sets the application font
        (Inter when the bundled font loads, `fontLoaded`, else Segoe UI, at
        10 points) and follows the scheme `scheme`. On a dark system that
        installs the dark theme; otherwise current is already Light, so
        nothing is installed and Qt's own look stays in effect. */
    constructor(scheme: Scheme, fontLoaded: bool)
      ensures Valid()
      ensures manual == Auto && current == SystemTheme(scheme)
      ensures fontFamily == (if fontLoaded then InterFamily else FallbackFamily) && fontSize == FontPointSize
      ensures scheme == DarkScheme ==> events == [Dark] && style == DarkStyle
      ensures scheme != DarkScheme ==> events == [] && style == QtDefault
      ensures Styled() <==> scheme == DarkScheme
    {
      current := Light;
      manual := Auto;
      style := QtDefault;
      events := [];
      fontFamily := if fontLoaded then InterFamily else FallbackFamily;
      fontSize := FontPointSize;
      new;
      UpdateSystemTheme(scheme);
    }

    /** The start-up the rest of the program expects: the theme the system
        asks for is installed whatever it is, so the look in effect always
        matches the current theme. */
    constructor Started(scheme: Scheme, fontLoaded: bool)
      ensures Valid() && Styled()
      ensures manual == Auto && current == SystemTheme(scheme)
      ensures fontFamily == (if fontLoaded then InterFamily else FallbackFamily) && fontSize == FontPointSize
      ensures events == [SystemTheme(scheme)]
    {
      var theme := SystemTheme(scheme);
      current := theme;
      manual := Auto;
      style := StyleOf(theme);
      events := [theme];
      fontFamily := if fontLoaded then InterFamily else FallbackFamily;
      fontSize := FontPointSize;
    }

    /** Records the user's pick; Auto re-reads the system scheme, any other
        theme is installed directly. */
    method SetTheme(theme: Theme, scheme: Scheme)
      requires Valid()
      modifies this
      ensures Valid()
      ensures manual == theme
      ensures current == (if theme == Auto then SystemTheme(scheme) else theme)
      ensures events == old(events) + (if current == old(current) then [] else [current])
      ensures style == (if current == old(current) then old(style) else StyleOf(current))
      ensures old(Styled()) ==> Styled()
      ensures fontFamily == old(fontFamily) && fontSize == old(fontSize)
    {
      manual := theme;
      if theme == Auto {
        UpdateSystemTheme(scheme);
      } else {
        ApplyTheme(theme);
      }
    }

    function CurrentTheme(): (t: Theme)
      reads this
      requires Valid()
      ensures t != Auto && t == current
    {
      current
    }

    /** Follows the system scheme, but only while the user's pick is Auto. */
    method UpdateSystemTheme(scheme: Scheme)
      requires Valid()
      modifies this
      ensures Valid()
      ensures manual == old(manual)
      ensures old(manual) != Auto ==> current == old(current) && events == old(events) && style == old(style)
      ensures old(manual) == Auto ==> current == SystemTheme(scheme)
      ensures events == old(events) + (if current == old(current) then [] else [current])
      ensures style == (if current == old(current) then old(style) else StyleOf(current))
      ensures old(Styled()) ==> Styled()
      ensures fontFamily == old(fontFamily) && fontSize == old(fontSize)
    {
      if manual != Auto {
        return;
      }
      if scheme == DarkScheme {
        ApplyTheme(Dark);
      } else {
        ApplyTheme(Light);
      }
    }

    /** Installs a theme and signals it, unless it is already the current
        one, in which case nothing happens and nothing is signalled. */
    method ApplyTheme(theme: Theme)
      modifies this
      ensures manual == old(manual) && fontFamily == old(fontFamily) && fontSize == old(fontSize)
      ensures old(current) == theme ==> current == old(current) && style == old(style) && events == old(events)
      ensures old(current) != theme ==> current == theme && style == StyleOf(theme) && events == old(events) + [theme]
    {
      if current == theme {
        return;
      }
      current := theme;
      style := StyleOf(theme);
      events := events + [theme];
    }
  }

  /** On a light system the program starts without its light palette and
      sheet: the look stays Qt's own, and only leaving Light and coming back
      installs it. */
  method LightStartUnstyled() returns (before: Style, after: Style)
    ensures before == QtDefault && after == LightStyle
  {
    var themes := new ThemeManager(LightScheme, true);
    before := themes.style;
    themes.SetTheme(Dark, LightScheme);
    themes.SetTheme(Light, LightScheme);
    after := themes.style;
  }
}
